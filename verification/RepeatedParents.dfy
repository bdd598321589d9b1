/** An accepted tree whose commit fails. */
module RepeatedParents {
  import opened DecisionCommit
  import opened DecisionTree
  import opened Json
  import opened Refs

  /** A node with the required fields only. */
  function NodeJson(ref: string, layer: nat, parents: seq<Json>): Json {
    Obj(map["ref" := Str(ref), "layer" := Int(layer), "title" := Str(ref), "parent_refs" := Arr(parents)])
  }

  lemma NodeJsonIsNode(ref: string, layer: nat, parents: seq<Json>)
    requires ref != [] && !IsSpace(ref[0]) && forall p | p in parents :: Text(p) && p != Str(ref)
    ensures var node := NodeJson(ref, layer, parents);
            WellShaped(node) && NodeOf(node) == Node(Ref(ref), layer, ref, RefsIn(parents), NO_DETAILS)
  {
    var node := NodeJson(ref, layer, parents);
    assert ref[0] in ref;
    assert node.Get("parent_refs") == Arr(parents);
  }

  lemma TwoNodesAreLayered(root: Node, child: Node)
    requires root.ref != child.ref && root.parents == [] && root.layer == 0
    requires child.layer > 0 && child.parents != [] && forall p | p in child.parents :: p == root.ref
    ensures UniqueRefs([root, child]) && Layered(RefMap([root, child]))
  {
    var nodes := [root, child];
    assert nodes[..1] == [root] && [root][..0] == [];
    assert RefMap([root]) == map[root.ref := root];
    assert RefMap(nodes) == map[root.ref := root, child.ref := child];
  }

  /** Two nodes form a valid tree when the first is a root and the only parent of the second. */
  lemma TwoItems(root: Json, child: Json, value: Json)
    requires WellShaped(root) && WellShaped(child) && value == Obj(map["nodes" := Arr([root, child])])
    requires var r, c := NodeOf(root), NodeOf(child);
             && r.ref != c.ref && r.parents == [] && r.layer == 0
             && c.layer > 0 && c.parents != [] && forall p | p in c.parents :: p == r.ref
    ensures ValidTree(value) && TreeNodes(value) == [NodeOf(root), NodeOf(child)]
  {
    assert value.Get("nodes") == Arr([root, child]);
    assert NodesOf([root, child]) == [NodeOf(root), NodeOf(child)];
    TwoNodesAreLayered(NodeOf(root), NodeOf(child));
  }

  const ROOT := NodeJson("a", 0, [])
  const CHILD := NodeJson("b", 1, [Str("a"), Str("a")])

  lemma RootIsNode()
    ensures WellShaped(ROOT) && NodeOf(ROOT) == Node(Ref("a"), 0, "a", [], NO_DETAILS)
  {
    NodeJsonIsNode("a", 0, []);
  }

  lemma ChildIsNode()
    ensures WellShaped(CHILD) && NodeOf(CHILD) == Node(Ref("b"), 1, "b", [Ref("a"), Ref("a")], NO_DETAILS)
  {
    assert "a"[0] in "a" && "a"[0] != "b"[0];
    NodeJsonIsNode("b", 1, [Str("a"), Str("a")]);
  }

  /** The validator accepts a child that names its parent twice, and the commit of this tree fails. */
  lemma TwiceTheSameParent()
    ensures var tree := Obj(map["nodes" := Arr([ROOT, CHILD])]);
            ValidTree(tree) && Accepted(TreeNodes(tree)) && !DistinctParents(TreeNodes(tree))
  {
    RootIsNode();
    ChildIsNode();
    RepeatedParent(ROOT, CHILD);
  }

  lemma RepeatedParent(root: Json, child: Json)
    requires WellShaped(root) && WellShaped(child)
    requires NodeOf(root) == Node(Ref("a"), 0, "a", [], NO_DETAILS)
    requires NodeOf(child) == Node(Ref("b"), 1, "b", [Ref("a"), Ref("a")], NO_DETAILS)
    ensures var tree := Obj(map["nodes" := Arr([root, child])]);
            ValidTree(tree) && Accepted(TreeNodes(tree)) && !DistinctParents(TreeNodes(tree))
  {
    assert "a" != "b";
    TwoItems(root, child, Obj(map["nodes" := Arr([root, child])]));
    var nodes := [NodeOf(root), NodeOf(child)];
    assert nodes[1].parents[0] == nodes[1].parents[1];
  }
}
