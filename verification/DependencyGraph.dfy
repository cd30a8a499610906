/** The depth-first visit that rejects cyclic profile dependencies. */
module DependencyGraph {

  type Graph = map<string, seq<string>>

  /** Every dependency is itself a profile. */
  ghost predicate Known(g: Graph) {
    forall n, k | n in g && 0 <= k < |g[n]| :: g[n][k] in g
  }

  predicate Edge(g: Graph, n: string, d: string) {
    n in g && d in g[n]
  }

  ghost predicate IsPath(g: Graph, p: seq<string>) {
    p != [] && (forall i | 0 <= i < |p| :: p[i] in g) && forall i | 0 < i < |p| :: Edge(g, p[i - 1], p[i])
  }

  ghost predicate IsCycle(g: Graph, p: seq<string>) {
    IsPath(g, p) && |p| > 1 && p[0] == p[|p| - 1]
  }

  ghost predicate HasCycle(g: Graph) {
    exists p :: IsCycle(g, p)
  }

  /** Each profile stands behind all its dependencies. */
  ghost predicate InDependencyOrder(g: Graph, order: seq<string>) {
    && (forall i | 0 <= i < |order| :: order[i] in g)
    && (forall i, d | 0 <= i < |order| && Edge(g, order[i], d) :: d in order[..i])
  }

  lemma {:induction false} PathDescends(g: Graph, order: seq<string>, p: seq<string>, n: nat)
    requires InDependencyOrder(g, order) && IsPath(g, p) && n < |order| && p[0] == order[n]
    ensures |p| > 1 ==> p[|p| - 1] in order[..n]
    decreases |p|
  {
    if |p| > 1 {
      assert Edge(g, p[0], p[1]);
      var m :| 0 <= m < n && order[m] == p[1];
      var rest := p[1..];
      assert IsPath(g, rest) by {
        forall i | 0 < i < |rest| ensures Edge(g, rest[i - 1], rest[i]) {
          assert Edge(g, p[i], p[i + 1]);
        }
      }
      PathDescends(g, order, rest, m);
      assert rest[|rest| - 1] == p[|p| - 1];
      if |rest| > 1 {
        assert order[..m] <= order[..n];
      }
    }
  }

  /** Profiles that can all be put in dependency order have no cycle. */
  lemma OrderedIsAcyclic(g: Graph, order: seq<string>)
    requires InDependencyOrder(g, order) && forall n | n in g :: n in order
    ensures !HasCycle(g)
  {
    forall p | IsPath(g, p) && |p| > 1 ensures p[0] != p[|p| - 1] {
      assert p[0] in g;
      var n := FirstIndex(order, p[0]);
      PathDescends(g, order, p, n);
    }
  }

  lemma FirstIndex(order: seq<string>, name: string) returns (n: nat)
    requires name in order
    ensures n < |order| && order[n] == name && name !in order[..n]
  {
    if order[0] == name {
      n := 0;
    } else {
      assert order == [order[0]] + order[1..];
      n := FirstIndex(order[1..], name);
      assert order[..n + 1] == [order[0]] + order[1..][..n];
      n := n + 1;
    }
  }

  /** The two sets of the visit; `order` lists the visited profiles as they were finished. */
  class Visitor {
    const graph: Graph
    var visiting: set<string>
    var visited: set<string>
    ghost var stack: seq<string>
    ghost var order: seq<string>

    constructor (graph: Graph)
      requires Known(graph)
      ensures Valid() && this.graph == graph && visited == {} && stack == []
    {
      this.graph := graph;
      visiting, visited, stack, order := {}, {}, [], [];
    }

    ghost predicate Valid()
      reads this
    {
      && Known(graph)
      && visiting == (set n | n in stack) && visited == (set n | n in order) && visiting !! visited
      && (stack == [] || IsPath(graph, stack))
      && InDependencyOrder(graph, order)
    }

    lemma Revisit(name: string)
      requires Valid() && name in visiting && (stack != [] ==> Edge(graph, stack[|stack| - 1], name))
      ensures HasCycle(graph)
    {
      var n := FirstIndex(stack, name);
      var cycle := stack[n..] + [name];
      forall i | 0 < i < |cycle| ensures Edge(graph, cycle[i - 1], cycle[i]) {
        if i < |cycle| - 1 {
          assert Edge(graph, stack[n + i - 1], stack[n + i]);
        }
      }
      assert IsCycle(graph, cycle);
    }

    /** `visit`: it finishes the profile, or has come around a cycle. */
    method Visit(name: string) returns (ok: bool)
      requires Valid() && name in graph && (stack != [] ==> Edge(graph, stack[|stack| - 1], name))
      modifies this
      ensures ok ==> Valid() && name in visited && old(visited) <= visited && stack == old(stack) && visiting == old(visiting)
      ensures !ok ==> HasCycle(graph)
      decreases |graph.Keys - visiting|
    {
      if name in visited {
        return true;
      }
      if name in visiting {
        Revisit(name);
        return false;
      }
      hide Valid, HasCycle, IsPath, InDependencyOrder, Known;
      ghost var below := stack;
      Enter(name);
      var dependencies := graph[name];
      for i := 0 to |dependencies|
        invariant Valid() && stack == below + [name] && visiting == old(visiting) + {name} && old(visited) <= visited
        invariant forall k | 0 <= k < i :: dependencies[k] in visited
      {
        ok := Visit(dependencies[i]);
        if !ok {
          return;
        }
      }
      Leave(name);
      assert below + [name] == stack + [name];
      return true;
    }

    method Enter(name: string)
      requires Valid() && name in graph && name !in visited && name !in visiting
      requires stack != [] ==> Edge(graph, stack[|stack| - 1], name)
      modifies this
      ensures Valid() && stack == old(stack) + [name] && visiting == old(visiting) + {name} && visited == old(visited)
      ensures |graph.Keys - visiting| < |graph.Keys - old(visiting)|
      ensures name !in old(stack) && forall d | d in graph[name] :: d in graph
    {
      hide InDependencyOrder, IsPath, Edge;
      FewerLeft(graph.Keys, visiting, name);
      ExtendedPath(graph, stack, name);
      visiting := visiting + {name};
      stack := stack + [name];
    }

    method Leave(name: string)
      requires Valid() && stack != [] && stack[|stack| - 1] == name && name !in stack[..|stack| - 1]
      requires forall d | d in graph[name] :: d in visited
      modifies this
      ensures Valid() && stack == old(stack)[..|old(stack)| - 1] && visiting == old(visiting) - {name}
      ensures visited == old(visited) + {name}
    {
      hide IsPath;
      visiting := visiting - {name};
      assert stack == stack[..|stack| - 1] + [name];
      ShortenedPath(graph, stack);
      stack := stack[..|stack| - 1];
      visited := visited + {name};
      FinishedOrder(graph, order, name);
      order := order + [name];
    }
  }

  lemma ExtendedPath(g: Graph, p: seq<string>, name: string)
    requires (p == [] || IsPath(g, p)) && name in g && (p != [] ==> Edge(g, p[|p| - 1], name))
    ensures IsPath(g, p + [name])
  {
  }

  lemma ShortenedPath(g: Graph, p: seq<string>)
    requires IsPath(g, p)
    ensures p[|p| - 1] in g && (p[..|p| - 1] == [] || IsPath(g, p[..|p| - 1]))
  {
  }

  lemma FinishedOrder(g: Graph, order: seq<string>, name: string)
    requires InDependencyOrder(g, order) && name in g && forall d | d in g[name] :: d in order
    ensures InDependencyOrder(g, order + [name])
  {
    var next := order + [name];
    forall i, d | 0 <= i < |next| && Edge(g, next[i], d) ensures d in next[..i] {
      assert next[..i] == order[..i];
      assert order[..|order|] == order;
    }
  }

  lemma FewerLeft(all: set<string>, visiting: set<string>, name: string)
    requires name in all && name !in visiting
    ensures |all - (visiting + {name})| < |all - visiting|
  {
    assert all - visiting == (all - (visiting + {name})) + {name};
  }

  /** The whole visit: for profiles whose dependencies are all known, it fails exactly when some profile depends, in
      steps, on itself. */
  method CheckAcyclic(names: seq<string>, graph: Graph) returns (ok: bool)
    requires Known(graph) && forall n :: n in names <==> n in graph
    ensures ok <==> !HasCycle(graph)
  {
    var visitor := new Visitor(graph);
    for i := 0 to |names|
      invariant fresh(visitor) && visitor.graph == graph && visitor.Valid() && visitor.stack == []
      invariant forall k | 0 <= k < i :: names[k] in visitor.visited
    {
      ok := visitor.Visit(names[i]);
      if !ok {
        return;
      }
    }
    OrderedIsAcyclic(graph, visitor.order);
    return true;
  }
}
