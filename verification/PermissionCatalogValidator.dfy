/** Start-up validation of the catalog: referential integrity, then the depth-first
    search for cycles. */
module PermissionCatalogValidator {
  import opened PermissionCatalog

  datatype CatalogError =
    | DanglingPrerequisite(id: Code, prerequisite: Code)
    | DeprecatedPrerequisite(id: Code, prerequisite: Code)
    | CyclicDependency(cyclePath: seq<Code>)

  datatype Outcome = Pass | Throw(error: CatalogError)

  predicate Distinct(s: seq<Code>) {
    forall i, j :: 0 <= i < j < |s| ==> s[i] != s[j]
  }

  function Elements(s: seq<Code>): set<Code> {
    set x | x in s
  }

  /** A real cycle: every step is an edge, the ends meet, nothing else repeats. */
  predicate IsCycle(g: Graph, p: seq<Code>) {
    |p| >= 2 && Walk(g, p) && p[0] == p[|p| - 1] && Distinct(p[..|p| - 1])
  }

  ghost predicate Revisits(w: seq<Code>) {
    exists i, j :: 0 <= i < j < |w| && w[i] == w[j]
  }

  /** A walk that starts at a catalog node and comes back to a code it has visited. */
  ghost predicate HasReachableCycle(g: Graph) {
    exists w :: Walk(g, w) && w[0] in g.nodes && Revisits(w)
  }

  /** Every edge leads to an earlier position: positions are a topological rank. */
  predicate Ranked(g: Graph, order: seq<Code>) {
    && Distinct(order)
    && forall i :: 0 <= i < |order| ==> Neighbors(g, order[i]) <= Elements(order[..i])
  }

  ghost predicate HasTopologicalOrder(g: Graph) {
    exists order :: Ranked(g, order) && g.nodes.Keys <= Elements(order)
  }

  function Universe(g: Graph): set<Code> {
    g.nodes.Keys + g.adjacency.Keys + set u, v | u in g.adjacency && v in g.adjacency[u] :: v
  }

  lemma NeighborsInUniverse(g: Graph, u: Code)
    ensures Neighbors(g, u) <= Universe(g)
  {
  }

  /** In a ranked order a walk goes strictly down, so it never comes back. */
  lemma {:induction false} RankDecreasesAlongWalk(g: Graph, order: seq<Code>, w: seq<Code>, top: nat) returns (last: nat)
    requires Ranked(g, order) && Walk(g, w)
    requires top < |order| && order[top] == w[0]
    ensures last < |order| && order[last] == w[|w| - 1]
    ensures |w| > 1 ==> last < top
    ensures |w| == 1 ==> last == top
  {
    if |w| == 1 {
      last := top;
    } else {
      assert Edge(g, w[0], w[1]);
      assert w[1] in order[..top];
      var next :| 0 <= next < top && order[next] == w[1];
      assert Walk(g, w[1..]) by {
        forall i | 0 <= i < |w[1..]| - 1 ensures Edge(g, w[1..][i], w[1..][i + 1]) {
          assert Edge(g, w[i + 1], w[i + 2]);
        }
      }
      last := RankDecreasesAlongWalk(g, order, w[1..], next);
    }
  }

  lemma SubWalk(g: Graph, w: seq<Code>, i: nat, j: nat)
    requires Walk(g, w) && i < j <= |w|
    ensures Walk(g, w[i..j])
  {
    forall k | 0 <= k < j - i - 1 ensures Edge(g, w[i..j][k], w[i..j][k + 1]) {
      assert Edge(g, w[i + k], w[i + k + 1]);
    }
  }

  lemma OrderedGraphHasNoCycle(g: Graph)
    requires HasTopologicalOrder(g)
    ensures !HasReachableCycle(g)
  {
    var order :| Ranked(g, order) && g.nodes.Keys <= Elements(order);
    forall w | Walk(g, w) && w[0] in g.nodes ensures !Revisits(w) {
      if Revisits(w) {
        var i, j :| 0 <= i < j < |w| && w[i] == w[j];
        assert w[0] in order;
        var top :| 0 <= top < |order| && order[top] == w[0];
        SubWalk(g, w, 0, i + 1);
        var at := RankDecreasesAlongWalk(g, order, w[0..i + 1], top);
        SubWalk(g, w, i, j + 1);
        var again := RankDecreasesAlongWalk(g, order, w[i..j + 1], at);
        assert false;
      }
    }
  }

  lemma StepExtendsWalk(g: Graph, w: seq<Code>, v: Code)
    requires Walk(g, w) && Edge(g, w[|w| - 1], v)
    ensures Walk(g, w + [v])
  {
  }

  lemma FinishKeepsRank(g: Graph, order: seq<Code>, u: Code)
    requires Ranked(g, order) && u !in order && Neighbors(g, u) <= Elements(order)
    ensures Ranked(g, order + [u])
    ensures Elements(order + [u]) == Elements(order) + {u}
  {
    var longer := order + [u];
    forall i | 0 <= i < |longer| ensures Neighbors(g, longer[i]) <= Elements(longer[..i]) {
      assert longer[..i] == order[..i];
      assert order[..|order|] == order;
    }
  }

  method IndexOf(path: seq<Code>, x: Code) returns (k: nat)
    requires x in path
    ensures k < |path| && path[k] == x && x !in path[..k]
  {
    k := 0;
    while path[k] != x
      invariant k < |path| && x !in path[..k]
      decreases |path| - k
    {
      k := k + 1;
    }
  }

  /** The path is a walk without repeats, its nodes are the recursion stack, the finished nodes are ranked,
      and visited is the two together. */
  ghost predicate SearchState(g: Graph, visited: set<Code>, stack: set<Code>, path: seq<Code>, finished: seq<Code>) {
    && Distinct(path)
    && (path != [] ==> Walk(g, path) && path[0] in g.nodes)
    && stack == Elements(path)
    && Ranked(g, finished)
    && Elements(finished) !! stack
    && visited == Elements(finished) + stack
    && visited <= Universe(g)
  }

  lemma PushKeepsState(g: Graph, visited: set<Code>, stack: set<Code>, path: seq<Code>, finished: seq<Code>, u: Code)
    requires SearchState(g, visited, stack, path, finished) && u !in visited && u in Universe(g)
    requires if path == [] then u in g.nodes else Edge(g, path[|path| - 1], u)
    ensures SearchState(g, visited + {u}, stack + {u}, path + [u], finished)
  {
    hide Ranked, Universe;
    assert u !in Elements(path);
    assert Elements(path + [u]) == Elements(path) + {u};
    if path != [] {
      StepExtendsWalk(g, path, u);
    }
  }

  lemma StateMembers(g: Graph, visited: set<Code>, stack: set<Code>, path: seq<Code>, finished: seq<Code>)
    requires SearchState(g, visited, stack, path, finished)
    ensures visited <= Universe(g)
    ensures forall v :: v in stack <==> v in path
    ensures forall v :: v in visited <==> v in stack || v in finished
  {
    hide Ranked, Universe, Walk, Distinct;
  }

  /** The last node of the path is finished once all its neighbours are. */
  lemma FinishKeepsState(g: Graph, visited: set<Code>, stack: set<Code>, path: seq<Code>, finished: seq<Code>, u: Code)
    requires SearchState(g, visited, stack, path, finished) && path != [] && path[|path| - 1] == u
    requires forall v :: v in Neighbors(g, u) ==> v in finished
    ensures SearchState(g, visited, stack - {u}, path[..|path| - 1], finished + [u])
  {
    hide Ranked, Walk, Universe, Distinct, Elements;
    PopPath(g, path);
    NeighboursFinished(g, finished, u, stack);
    FinishKeepsRank(g, finished, u);
  }

  lemma PopPath(g: Graph, path: seq<Code>)
    requires Distinct(path) && path != [] && Walk(g, path)
    ensures var front := path[..|path| - 1];
      && Distinct(front) && Elements(front) == Elements(path) - {path[|path| - 1]} && path[|path| - 1] in Elements(path)
      && (front != [] ==> Walk(g, front) && front[0] == path[0])
  {
    var front := path[..|path| - 1];
    assert path == front + [path[|path| - 1]];
    if front != [] {
      SubWalk(g, path, 0, |front|);
      assert path[0..|front|] == front;
    }
  }

  lemma NeighboursFinished(g: Graph, finished: seq<Code>, u: Code, stack: set<Code>)
    requires forall v :: v in Neighbors(g, u) ==> v in finished
    requires Elements(finished) !! stack && u in stack
    ensures Neighbors(g, u) <= Elements(finished) && u !in finished
  {
    assert forall x :: x in finished <==> x in Elements(finished);
  }

  /** The closure variables of detectCycles. finished lists the nodes in the order their
      search ended; it is not in the program and only serves the proof. */
  class CycleDetector {
    const graph: Graph
    var visited: set<Code>
    var recursionStack: set<Code>
    var currentPath: seq<Code>
    ghost var finished: seq<Code>

    constructor (graph: Graph)
      ensures this.graph == graph && Valid() && currentPath == [] && visited == {}
    {
      this.graph := graph;
      visited, recursionStack, currentPath, finished := {}, {}, [], [];
    }

    ghost predicate Valid() reads this {
      SearchState(graph, visited, recursionStack, currentPath, finished)
    }

    /** One recursive search. A throw abandons the state, so nothing is promised about it then. */
    method Dfs(nodeId: Code) returns (r: Outcome)
      requires Valid() && nodeId !in visited && nodeId in Universe(graph)
      requires if currentPath == [] then nodeId in graph.nodes else Edge(graph, currentPath[|currentPath| - 1], nodeId)
      modifies this
      ensures r.Pass? ==> Valid() && currentPath == old(currentPath) && nodeId in finished
      ensures r.Pass? ==> old(visited) <= visited && old(finished) <= finished
      ensures r.Throw? ==> r.error.CyclicDependency? && IsCycle(graph, r.error.cyclePath) && HasReachableCycle(graph)
      decreases Universe(graph) - visited
    {
      hide IsCycle, HasReachableCycle, SearchState;
      PushKeepsState(graph, visited, recursionStack, currentPath, finished, nodeId);
      visited := visited + {nodeId};
      recursionStack := recursionStack + {nodeId};
      currentPath := currentPath + [nodeId];

      var todo := Neighbors(graph, nodeId);
      while todo != {}
        invariant Valid() && todo <= Neighbors(graph, nodeId)
        invariant currentPath == old(currentPath) + [nodeId]
        invariant old(visited) + {nodeId} <= visited && old(finished) <= finished
        invariant forall v :: v in Neighbors(graph, nodeId) && v !in todo ==> v in finished
      {
        var neighbor :| neighbor in todo;
        todo := todo - {neighbor};
        NeighborsInUniverse(graph, nodeId);
        StateMembers(graph, visited, recursionStack, currentPath, finished);
        if neighbor !in visited {
          r := Dfs(neighbor);
          if r.Throw? {
            return;
          }
        } else if neighbor in recursionStack {
          var cyclePath := ClosingPath(neighbor);
          return Throw(CyclicDependency(cyclePath));
        }
      }
      FinishKeepsState(graph, visited, recursionStack, currentPath, finished, nodeId);
      currentPath := currentPath[..|currentPath| - 1];
      recursionStack := recursionStack - {nodeId};
      finished := finished + [nodeId];
      assert currentPath == old(currentPath);
      r := Pass;
    }

    /** The witness: the current path from the neighbour's place on it, closed by the neighbour. */
    method ClosingPath(neighbor: Code) returns (cyclePath: seq<Code>)
      requires Valid() && neighbor in currentPath && Edge(graph, currentPath[|currentPath| - 1], neighbor)
      ensures IsCycle(graph, cyclePath) && cyclePath[0] == neighbor
      ensures HasReachableCycle(graph)
    {
      var cycleStartIndex := IndexOf(currentPath, neighbor);
      cyclePath := currentPath[cycleStartIndex..] + [neighbor];
      SubWalk(graph, currentPath, cycleStartIndex, |currentPath|);
      StepExtendsWalk(graph, currentPath[cycleStartIndex..], neighbor);
      assert cyclePath[..|cyclePath| - 1] == currentPath[cycleStartIndex..];
      StepExtendsWalk(graph, currentPath, neighbor);
      var whole := currentPath + [neighbor];
      assert whole[cycleStartIndex] == whole[|currentPath|];
      assert Revisits(whole);
    }

    /** PermissionCatalogValidator.detectCycles, from the empty state. */
    method DetectCycles() returns (r: Outcome)
      requires Valid() && currentPath == []
      modifies this
      ensures r.Pass? <==> !HasReachableCycle(graph)
      ensures r.Pass? ==> HasTopologicalOrder(graph)
      ensures r.Throw? ==> r.error.CyclicDependency? && IsCycle(graph, r.error.cyclePath)
    {
      var todo := graph.nodes.Keys;
      while todo != {}
        invariant Valid() && currentPath == [] && todo <= graph.nodes.Keys
        invariant forall u :: u in graph.nodes && u !in todo ==> u in finished
      {
        var nodeId :| nodeId in todo;
        todo := todo - {nodeId};
        if nodeId !in visited {
          r := Dfs(nodeId);
          if r.Throw? {
            return;
          }
        }
      }
      assert Ranked(graph, finished) && graph.nodes.Keys <= Elements(finished);
      OrderedGraphHasNoCycle(graph);
      r := Pass;
    }
  }
  /** The j-th prerequisite of the i-th definition is acceptable. */
  predicate PrerequisiteOk(defs: seq<PermissionDefinition>, g: Graph, i: nat, j: nat)
    requires i < |defs| && j < |defs[i].requiredCodes|
  {
    var req := defs[i].requiredCodes[j];
    req in Ids(defs) && !(req in g.nodes && g.nodes[req].definition.deprecated)
  }

  predicate DefinitionOk(defs: seq<PermissionDefinition>, g: Graph, i: nat)
    requires i < |defs|
  {
    forall j :: 0 <= j < |defs[i].requiredCodes| ==> PrerequisiteOk(defs, g, i, j)
  }

  predicate Referential(defs: seq<PermissionDefinition>, g: Graph) {
    forall i :: 0 <= i < |defs| ==> DefinitionOk(defs, g, i)
  }

  /** The error names the first bad prerequisite of the first bad definition. */
  ghost predicate FirstBadPrerequisite(defs: seq<PermissionDefinition>, g: Graph, e: CatalogError) {
    exists i, j :: 0 <= i < |defs| && 0 <= j < |defs[i].requiredCodes|
      && !PrerequisiteOk(defs, g, i, j)
      && (forall k :: 0 <= k < i ==> DefinitionOk(defs, g, k))
      && (forall k :: 0 <= k < j ==> PrerequisiteOk(defs, g, i, k))
      && e == if defs[i].requiredCodes[j] !in Ids(defs)
              then DanglingPrerequisite(defs[i].id, defs[i].requiredCodes[j])
              else DeprecatedPrerequisite(defs[i].id, defs[i].requiredCodes[j])
  }

  /** PermissionCatalogValidator.validateReferentialIntegrity. */
  method ValidateReferentialIntegrity(defs: seq<PermissionDefinition>, g: Graph) returns (r: Outcome)
    ensures r.Pass? <==> Referential(defs, g)
    ensures r.Throw? ==> FirstBadPrerequisite(defs, g, r.error)
  {
    var validCodes := Ids(defs);
    for i := 0 to |defs|
      invariant forall k :: 0 <= k < i ==> DefinitionOk(defs, g, k)
    {
      for j := 0 to |defs[i].requiredCodes|
        invariant forall k :: 0 <= k < j ==> PrerequisiteOk(defs, g, i, k)
      {
        var req := defs[i].requiredCodes[j];
        if req !in validCodes {
          assert !PrerequisiteOk(defs, g, i, j) && !DefinitionOk(defs, g, i);
          return Throw(DanglingPrerequisite(defs[i].id, req));
        }
        if req in g.nodes && g.nodes[req].definition.deprecated {
          assert !PrerequisiteOk(defs, g, i, j) && !DefinitionOk(defs, g, i);
          return Throw(DeprecatedPrerequisite(defs[i].id, req));
        }
      }
    }
    r := Pass;
  }

  /** A catalog that start-up accepts. */
  ghost predicate Accepted(defs: seq<PermissionDefinition>, g: Graph) {
    BuiltFrom(defs, g) && Referential(defs, g) && !HasReachableCycle(g)
  }

  /** PermissionCatalogService.initialize: build the graph, then validate it. */
  method Initialize(defs: seq<PermissionDefinition>) returns (g: Graph, r: Outcome)
    ensures BuiltFrom(defs, g)
    ensures r.Pass? <==> Accepted(defs, g)
    ensures r.Throw? && r.error.CyclicDependency? ==> Referential(defs, g) && IsCycle(g, r.error.cyclePath)
    ensures r.Throw? && !r.error.CyclicDependency? ==> FirstBadPrerequisite(defs, g, r.error)
  {
    g := BuildGraph(defs);
    r := ValidateReferentialIntegrity(defs, g);
    if r.Pass? {
      var detector := new CycleDetector(g);
      r := detector.DetectCycles();
    }
  }

  /** In a built graph only nodes have prerequisites, so any cycle is one the search can reach. */
  lemma EveryCycleIsReachable(defs: seq<PermissionDefinition>, g: Graph, p: seq<Code>)
    requires BuiltFrom(defs, g) && IsCycle(g, p)
    ensures HasReachableCycle(g)
  {
    assert Edge(g, p[0], p[1]);
    assert p[0] in g.nodes;
    assert Revisits(p);
  }
}
