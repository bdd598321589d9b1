/** The reference by which one node of a decision tree names another. */
module Refs {
  datatype Ref = Ref(text: string)
}

/** The visiting/visited search for cycles among parent references. */
module CycleSearch {
  import opened Refs

  /** Every node with its parents. */
  type Graph = map<Ref, seq<Ref>>

  ghost predicate Closed(g: Graph) {
    forall r, p | r in g && p in g[r] :: p in g
  }

  /** Each element after the first is a parent of the one before it. */
  ghost predicate Chain(g: Graph, c: seq<Ref>) {
    && (forall i | 0 <= i < |c| :: c[i] in g)
    && forall i | 0 <= i < |c| - 1 :: c[i + 1] in g[c[i]]
  }

  ghost predicate Cycle(g: Graph, c: seq<Ref>) {
    |c| >= 2 && Chain(g, c) && c[0] == c[|c| - 1]
  }

  ghost predicate Cyclic(g: Graph) {
    exists c :: Cycle(g, c)
  }

  ghost function Members(s: seq<Ref>): set<Ref> {
    set x | x in s
  }

  /** Every node of `done` has all its parents before it, so no node can come back to itself. */
  ghost predicate ParentsFirst(g: Graph, done: seq<Ref>) {
    && (forall i, j | 0 <= i < j < |done| :: done[i] != done[j])
    && (forall i | 0 <= i < |done| :: done[i] in g && forall p | p in g[done[i]] :: p in done[..i])
  }

  lemma {:induction false} ChainDescends(g: Graph, done: seq<Ref>, c: seq<Ref>, i: nat) returns (j: nat)
    requires ParentsFirst(g, done) && i < |done|
    requires Chain(g, c) && |c| >= 1 && c[0] == done[i]
    ensures j < |done| && done[j] == c[|c| - 1] && j <= i && (|c| >= 2 ==> j < i)
  {
    if |c| == 1 {
      j := i;
    } else {
      assert c[1] in done[..i];
      var k :| 0 <= k < i && done[k] == c[1];
      j := ChainDescends(g, done, c[1..], k);
    }
  }

  lemma ParentsFirstIsAcyclic(g: Graph, done: seq<Ref>)
    requires ParentsFirst(g, done) && Members(done) == g.Keys
    ensures !Cyclic(g)
  {
    forall c | Cycle(g, c) ensures false {
      assert c[0] in Members(done);
      var i :| 0 <= i < |done| && done[i] == c[0];
      var j := ChainDescends(g, done, c, i);
    }
  }

  lemma OneMoreDone(g: Graph, done: seq<Ref>, r: Ref)
    requires ParentsFirst(g, done) && r in g && r !in done && forall p | p in g[r] :: p in done
    ensures ParentsFirst(g, done + [r]) && Members(done + [r]) == Members(done) + {r}
  {
    var d := done + [r];
    forall i | 0 <= i < |d| ensures forall p | p in g[d[i]] :: p in d[..i] {
      assert d[..i] == done[..i];
    }
    assert done[..|done|] == done;
  }

  class Search {
    const g: Graph
    var visiting: set<Ref>
    var visited: set<Ref>
    /** The nodes being visited, outermost first, and the finished ones in the order they finished. */
    ghost var stack: seq<Ref>
    ghost var done: seq<Ref>

    ghost predicate Valid()
      reads this
    {
      && Closed(g)
      && visiting == Members(stack) && Chain(g, stack)
      && visited == Members(done) && ParentsFirst(g, done)
      && visiting !! visited
      && forall i, j | 0 <= i < j < |stack| :: stack[i] != stack[j]
    }

    constructor (g: Graph)
      requires Closed(g)
      ensures Valid() && this.g == g && visiting == {} && visited == {} && stack == []
    {
      this.g := g;
      visiting, visited, stack, done := {}, {}, [], [];
    }

    /** The search terminates because each deeper call leaves fewer references unvisited. */
    method HasCycle(ref: Ref) returns (found: bool)
      requires Valid() && ref in g && (stack != [] ==> ref in g[stack[|stack| - 1]])
      modifies this
      ensures found ==> Cyclic(g)
      ensures !found ==> Valid() && stack == old(stack) && visiting == old(visiting)
      ensures !found ==> old(visited) + {ref} <= visited
      decreases g.Keys - visiting - visited
    {
      if ref in visiting {
        ghost var i :| 0 <= i < |stack| && stack[i] == ref;
        ghost var c := stack[i..] + [ref];
        assert Cycle(g, c);
        return true;
      }
      if ref in visited {
        return false;
      }
      visiting := visiting + {ref};
      stack := stack + [ref];
      var parents := g[ref];
      for k := 0 to |parents|
        invariant Valid() && stack == old(stack) + [ref]
        invariant old(visited) <= visited
        invariant forall p | p in parents[..k] :: p in visited
      {
        assert ref !in g.Keys - visiting - visited && ref in old(g.Keys - visiting - visited);
        assert g.Keys - visiting - visited <= old(g.Keys - visiting - visited);
        var deeper := HasCycle(parents[k]);
        if deeper {
          return true;
        }
      }
      assert ref !in visited;
      visiting := visiting - {ref};
      visited := visited + {ref};
      stack := old(stack);
      assert parents[..|parents|] == parents;
      OneMoreDone(g, done, ref);
      done := done + [ref];
      return false;
    }
  }

  /** Over all start nodes, the search reports a cycle exactly when there is one. */
  method ContainsCycle(g: Graph, refs: seq<Ref>) returns (found: bool)
    requires Closed(g) && Members(refs) == g.Keys
    ensures found <==> Cyclic(g)
  {
    var search := new Search(g);
    for i := 0 to |refs|
      invariant fresh(search) && search.g == g && search.Valid() && search.stack == []
      invariant Members(refs[..i]) <= search.visited
    {
      assert refs[i] in Members(refs);
      var cyclic := search.HasCycle(refs[i]);
      if cyclic {
        return true;
      }
    }
    assert refs[..|refs|] == refs;
    assert search.visited <= g.Keys;
    ParentsFirstIsAcyclic(g, search.done);
    return false;
  }
}
