/** The decision and edge tables, and the checks made before an edge is added (backend/decision/services.py). */
module DecisionStore {
  import opened Refs
  import opened Results
  import opened Sequences

  datatype Edge = Edge(from: nat, to: nat)

  datatype Decision = Decision(title: string, summary: Option<string>, reasoning: Option<string>, risk: Option<string>,
                               confidence: Option<int>, topic: string)

  datatype CommitError = SelfReference | IntroducesCycle | DuplicateEdge

  // ----- paths over stored edges

  ghost predicate Path(edges: seq<Edge>, p: seq<nat>) {
    |p| >= 1 && forall i | 0 <= i < |p| - 1 :: Edge(p[i], p[i + 1]) in edges
  }

  ghost predicate Reaches(edges: seq<Edge>, start: nat, target: nat) {
    exists p :: Path(edges, p) && p[0] == start && p[|p| - 1] == target
  }

  lemma ReachesSelf(edges: seq<Edge>, x: nat)
    ensures Reaches(edges, x, x)
  {
    assert Path(edges, [x]) && [x][0] == x;
  }

  lemma ReachesNext(edges: seq<Edge>, x: nat, y: nat, z: nat)
    requires Reaches(edges, x, y) && Edge(y, z) in edges
    ensures Reaches(edges, x, z)
  {
    var p :| Path(edges, p) && p[0] == x && p[|p| - 1] == y;
    var q := p + [z];
    assert Path(edges, q) && q[0] == x && q[|q| - 1] == z;
  }

  /** A set that is closed under edges contains whatever its members reach. */
  lemma {:induction false} ReachesWithin(edges: seq<Edge>, s: iset<nat>, p: seq<nat>)
    requires Path(edges, p) && p[0] in s
    requires forall e | e in edges && e.from in s :: e.to in s
    ensures p[|p| - 1] in s
  {
    if |p| >= 2 {
      assert Edge(p[0], p[1]) in edges;
      ReachesWithin(edges, s, p[1..]);
    }
  }

  function Children(edges: seq<Edge>, x: nat): (cs: seq<nat>)
    ensures forall c :: c in cs <==> Edge(x, c) in edges
  {
    if edges == [] then []
    else
      var last := edges[|edges| - 1];
      assert edges == edges[..|edges| - 1] + [last];
      Children(edges[..|edges| - 1], x) + if last.from == x then [last.to] else []
  }

  ghost function Universe(edges: seq<Edge>, start: nat): set<nat> {
    {start} + set e | e in edges :: e.to
  }

  /** `_has_path`: the search with an explicit stack finds a path exactly when there is one. */
  method HasPath(edges: seq<Edge>, start: nat, target: nat) returns (found: bool)
    ensures found <==> Reaches(edges, start, target)
  {
    ReachesSelf(edges, start);
    if start == target { return true; }
    var visited, stack: seq<nat> := {}, [start];
    ghost var universe := Universe(edges, start);
    while stack != []
      invariant visited <= universe && target !in visited
      invariant forall x | x in stack :: x in universe && Reaches(edges, start, x)
      invariant forall x | x in visited :: Reaches(edges, start, x)
      invariant forall e | e in edges && e.from in visited :: e.to in visited || e.to in stack
      invariant start in visited || start in stack
      decreases universe - visited, |stack|
    {
      var current := stack[|stack| - 1];
      ghost var before := stack;
      stack := stack[..|stack| - 1];
      assert before == stack + [current];
      if current in visited { continue; }
      assert current in universe - visited;
      visited := visited + {current};
      if current == target { return true; }
      var children := Children(edges, current);
      for i := 0 to |children|
        invariant forall x | x in stack :: x in universe && Reaches(edges, start, x)
        invariant forall x | x in before :: x in stack || x == current
        invariant forall c | c in children[..i] :: c in visited || c in stack
      {
        assert children[i] in children;
        assert Edge(current, children[i]) in edges;
        ReachesNext(edges, start, current, children[i]);
        if children[i] !in visited { stack := stack + [children[i]]; }
      }
      assert children[..|children|] == children;
    }
    if Reaches(edges, start, target) {
      ghost var p :| Path(edges, p) && p[0] == start && p[|p| - 1] == target;
      ReachesWithin(edges, (iset x | x in visited), p);
    }
    return false;
  }

  // ----- the edges of one child

  function EdgesFrom(parents: seq<Ref>, child: nat, ids: map<Ref, nat>): (es: seq<Edge>)
    requires forall p | p in parents :: p in ids
    ensures |es| == |parents| && forall i | 0 <= i < |parents| :: es[i] == Edge(ids[parents[i]], child)
  {
    seq(|parents|, i requires 0 <= i < |parents| => Edge(ids[parents[i]], child))
  }

  /** Edges out of ranked decisions lead to decisions of a higher rank. */
  ghost predicate EdgesRise(edges: seq<Edge>, rank: map<nat, nat>) {
    forall e | e in edges && e.from in rank :: e.to in rank && rank[e.from] < rank[e.to]
  }

  /** Every parent has a decision of lower rank than the child, and different parents different ones. */
  ghost predicate ParentsBelow(parents: seq<Ref>, child: nat, ids: map<Ref, nat>, names: map<nat, Ref>,
                               rank: map<nat, nat>) {
    && child in rank
    && forall p | p in parents ::
         p in ids && ids[p] in rank && rank[ids[p]] < rank[child] && ids[p] in names && names[ids[p]] == p
  }

  lemma NoPathBack(edges: seq<Edge>, rank: map<nat, nat>, child: nat, parent: nat)
    requires EdgesRise(edges, rank) && child in rank && parent in rank && rank[parent] < rank[child]
    ensures !Reaches(edges, child, parent)
  {
    if Reaches(edges, child, parent) {
      var p :| Path(edges, p) && p[0] == child && p[|p| - 1] == parent;
      ReachesWithin(edges, (iset x | x in rank && rank[x] >= rank[child]), p);
    }
  }

  lemma ListedTwice(before: seq<Edge>, parents: seq<Ref>, child: nat, ids: map<Ref, nat>,
                    names: map<nat, Ref>, rank: map<nat, nat>, k: nat)
    requires ParentsBelow(parents, child, ids, names, rank)
    requires k < |parents| && forall e | e in before :: e.to != child
    requires Edge(ids[parents[k]], child) in before + EdgesFrom(parents, child, ids)[..k]
    ensures !Distinct(parents)
  {
  }

  lemma NotYetListed(before: seq<Edge>, parents: seq<Ref>, child: nat, ids: map<Ref, nat>, k: nat)
    requires forall p | p in parents :: p in ids
    requires k < |parents| && Distinct(parents[..k])
    requires Edge(ids[parents[k]], child) !in before + EdgesFrom(parents, child, ids)[..k]
    ensures Distinct(parents[..k + 1])
  {
  }

  lemma RiseWith(edges: seq<Edge>, rank: map<nat, nat>, parent: nat, child: nat)
    requires EdgesRise(edges, rank) && parent in rank && child in rank && rank[parent] < rank[child]
    ensures EdgesRise(edges + [Edge(parent, child)], rank)
  {
  }

  class Store {
    var decisions: map<nat, Decision>
    var edges: seq<Edge>
    var nextId: nat

    ghost predicate Valid()
      reads this
    {
      && (forall id | id in decisions :: id < nextId)
      && forall e | e in edges :: e.from in decisions && e.to in decisions && e.from != e.to
    }

    constructor ()
      ensures Valid() && decisions == map[] && edges == []
    {
      decisions, edges, nextId := map[], [], 0;
    }

    method AddDecision(decision: Decision) returns (id: nat)
      requires Valid()
      modifies this`decisions, this`nextId
      ensures Valid() && id == old(nextId) && nextId == id + 1
      ensures decisions == old(decisions)[id := decision] && id !in old(decisions)
    {
      id := nextId;
      decisions, nextId := decisions[id := decision], id + 1;
    }

    /** `validate_decision_edge`, then the insert with its uniqueness constraint. */
    method AddEdge(parent: nat, child: nat) returns (r: Option<CommitError>)
      requires Valid() && parent in decisions && child in decisions
      modifies this`edges
      ensures Valid() && decisions == old(decisions)
      ensures r == if parent == child then Some(SelfReference)
                   else if Reaches(old(edges), child, parent) then Some(IntroducesCycle)
                   else if Edge(parent, child) in old(edges) then Some(DuplicateEdge)
                   else None
      ensures edges == if r.None? then old(edges) + [Edge(parent, child)] else old(edges)
    {
      if parent == child { return Some(SelfReference); }
      var cycle := HasPath(edges, child, parent);
      if cycle { return Some(IntroducesCycle); }
      if Edge(parent, child) in edges { return Some(DuplicateEdge); }
      edges := edges + [Edge(parent, child)];
      return None;
    }

    /** All edges of one child.  Only a parent that is listed twice can stop it. */
    method AddParents(parents: seq<Ref>, child: nat, ids: map<Ref, nat>,
                      ghost names: map<nat, Ref>, ghost rank: map<nat, nat>) returns (r: Option<CommitError>)
      requires Valid() && EdgesRise(edges, rank) && forall id | id in rank :: id in decisions
      requires ParentsBelow(parents, child, ids, names, rank) && forall e | e in edges :: e.to != child
      modifies this`edges
      ensures Valid() && decisions == old(decisions)
      ensures r.None? <==> Distinct(parents)
      ensures r.Some? ==> r.value == DuplicateEdge
      ensures r.None? ==> edges == old(edges) + EdgesFrom(parents, child, ids) && EdgesRise(edges, rank)
    {
      ghost var es := EdgesFrom(parents, child, ids);
      for k := 0 to |parents|
        invariant Valid() && decisions == old(decisions) && edges == old(edges) + es[..k]
        invariant EdgesRise(edges, rank) && Distinct(parents[..k])
      {
        var parent := ids[parents[k]];
        assert parents[k] in parents;
        NoPathBack(edges, rank, child, parent);
        RiseWith(edges, rank, parent, child);
        assert es[..k + 1] == es[..k] + [es[k]];
        r := AddEdge(parent, child);
        if r.Some? {
          ListedTwice(old(edges), parents, child, ids, names, rank, k);
          return r;
        }
        NotYetListed(old(edges), parents, child, ids, k);
      }
      assert parents[..|parents|] == parents && es[..|parents|] == es;
      return None;
    }
  }
}
