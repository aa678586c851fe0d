/** The permission catalog as the graph builder sees it: definitions, the forward
    adjacency (a permission to its prerequisites) and the reverse one (a permission
    to its dependents).

    A JavaScript Set is a Dafny set and is iterated in an arbitrary order, so every
    result below holds for the insertion order the program uses. */
module PermissionCatalog {
  type Code = string

  datatype PermissionDefinition = PermissionDefinition(id: Code, requiredCodes: seq<Code>, deprecated: bool)

  datatype DependencyNode =
    DependencyNode(definition: PermissionDefinition, prerequisites: set<Code>, dependents: set<Code>)

  datatype Graph = Graph(
    nodes: map<Code, DependencyNode>,
    adjacency: map<Code, set<Code>>,
    reverse: map<Code, set<Code>>)

  function Neighbors(g: Graph, u: Code): set<Code> {
    if u in g.adjacency then g.adjacency[u] else {}
  }

  predicate Edge(g: Graph, u: Code, v: Code) {
    v in Neighbors(g, u)
  }

  /** A walk follows one prerequisite edge at each step. */
  predicate Walk(g: Graph, w: seq<Code>) {
    |w| > 0 && forall i :: 0 <= i < |w| - 1 ==> Edge(g, w[i], w[i + 1])
  }

  ghost predicate Reaches(g: Graph, u: Code, v: Code) {
    exists w :: Walk(g, w) && w[0] == u && w[|w| - 1] == v
  }

  /** One of the first n definitions has this id and lists this prerequisite. */
  ghost predicate DeclaredBefore(defs: seq<PermissionDefinition>, n: nat, id: Code, req: Code)
    requires n <= |defs|
  {
    exists i :: 0 <= i < n && defs[i].id == id && req in defs[i].requiredCodes
  }

  /** One of the first n definitions lists this prerequisite. */
  ghost predicate RequiredBefore(defs: seq<PermissionDefinition>, n: nat, req: Code)
    requires n <= |defs|
  {
    exists i :: 0 <= i < n && req in defs[i].requiredCodes
  }

  ghost predicate Declares(defs: seq<PermissionDefinition>, id: Code, req: Code) {
    DeclaredBefore(defs, |defs|, id, req)
  }

  /** d is the last of the first n definitions with this id. */
  ghost predicate LastBefore(defs: seq<PermissionDefinition>, n: nat, id: Code, d: PermissionDefinition)
    requires n <= |defs|
  {
    exists i :: 0 <= i < n && defs[i] == d && d.id == id && forall j :: i < j < n ==> defs[j].id != id
  }

  function IdsBefore(defs: seq<PermissionDefinition>, n: nat): set<Code>
    requires n <= |defs|
  {
    set i | 0 <= i < n :: defs[i].id
  }

  function Ids(defs: seq<PermissionDefinition>): set<Code> {
    IdsBefore(defs, |defs|)
  }

  predicate UniqueIds(defs: seq<PermissionDefinition>) {
    forall i, j :: 0 <= i < j < |defs| ==> defs[i].id != defs[j].id
  }

  /** The adjacency maps hold exactly the edges the first n definitions declare,
      read forwards and backwards. */
  ghost predicate AdjacencyUpTo(defs: seq<PermissionDefinition>, n: nat,
                                adjacency: map<Code, set<Code>>, reverse: map<Code, set<Code>>)
    requires n <= |defs|
  {
    && adjacency.Keys == Ids(defs)
    && (forall u, v :: u in adjacency ==> (v in adjacency[u] <==> DeclaredBefore(defs, n, u, v)))
    && (forall v :: v in reverse <==> v in Ids(defs) || RequiredBefore(defs, n, v))
    && (forall u, v :: v in reverse ==> (u in reverse[v] <==> DeclaredBefore(defs, n, u, v)))
  }

  /** One node per id, carrying the last definition with that id and both neighbour sets. */
  ghost predicate NodesUpTo(defs: seq<PermissionDefinition>, n: nat, nodes: map<Code, DependencyNode>,
                            adjacency: map<Code, set<Code>>, reverse: map<Code, set<Code>>)
    requires n <= |defs|
  {
    && nodes.Keys == IdsBefore(defs, n)
    && (forall u :: u in nodes ==>
      && u in adjacency && nodes[u].prerequisites == adjacency[u]
      && u in reverse && nodes[u].dependents == reverse[u]
      && LastBefore(defs, n, u, nodes[u].definition))
  }

  ghost predicate BuiltFrom(defs: seq<PermissionDefinition>, g: Graph) {
    && AdjacencyUpTo(defs, |defs|, g.adjacency, g.reverse)
    && NodesUpTo(defs, |defs|, g.nodes, g.adjacency, g.reverse)
  }

  /** PermissionGraphBuilder.buildGraph: the three passes over the definitions. */
  method BuildGraph(defs: seq<PermissionDefinition>) returns (g: Graph)
    ensures BuiltFrom(defs, g)
  {
    var adjacency, reverse := EmptyAdjacency(defs);
    for i := 0 to |defs|
      invariant AdjacencyUpTo(defs, i, adjacency, reverse)
    {
      adjacency, reverse := AddPrerequisites(defs, i, adjacency, reverse);
    }
    var nodes := IndexNodes(defs, adjacency, reverse);
    g := Graph(nodes, adjacency, reverse);
  }

  method EmptyAdjacency(defs: seq<PermissionDefinition>)
    returns (adjacency: map<Code, set<Code>>, reverse: map<Code, set<Code>>)
    ensures AdjacencyUpTo(defs, 0, adjacency, reverse)
  {
    adjacency, reverse := map[], map[];
    for i := 0 to |defs|
      invariant adjacency.Keys == reverse.Keys == IdsBefore(defs, i)
      invariant forall u :: u in adjacency ==> adjacency[u] == {}
      invariant forall u :: u in reverse ==> reverse[u] == {}
    {
      adjacency := adjacency[defs[i].id := {}];
      reverse := reverse[defs[i].id := {}];
    }
  }

  /** The second pass, for one definition: its prerequisites as a Set. */
  method AddPrerequisites(defs: seq<PermissionDefinition>, i: nat,
                          adjacency0: map<Code, set<Code>>, reverse0: map<Code, set<Code>>)
    returns (adjacency: map<Code, set<Code>>, reverse: map<Code, set<Code>>)
    requires i < |defs| && AdjacencyUpTo(defs, i, adjacency0, reverse0)
    ensures AdjacencyUpTo(defs, i + 1, adjacency, reverse)
  {
    adjacency, reverse := adjacency0, reverse0;
    var id := defs[i].id;
    var prerequisites := set r | r in defs[i].requiredCodes;
    var todo := prerequisites;
    while todo != {}
      invariant todo <= prerequisites
      invariant adjacency.Keys == adjacency0.Keys
      invariant forall u, v :: u in adjacency ==>
        (v in adjacency[u] <==> v in adjacency0[u] || (u == id && v in prerequisites && v !in todo))
      invariant forall v :: v in reverse <==> v in reverse0 || (v in prerequisites && v !in todo)
      invariant forall u, v :: v in reverse ==>
        (u in reverse[v] <==> (v in reverse0 && u in reverse0[v]) || (u == id && v in prerequisites && v !in todo))
    {
      var req :| req in todo;
      adjacency := adjacency[id := adjacency[id] + {req}];
      if req !in reverse {
        reverse := reverse[req := {}];
      }
      reverse := reverse[req := reverse[req] + {id}];
      todo := todo - {req};
    }
    forall u, v | u in adjacency ensures v in adjacency[u] <==> DeclaredBefore(defs, i + 1, u, v) {
      DeclaredStep(defs, i, u, v);
      assert v in adjacency[u] <==> v in adjacency0[u] || (u == id && v in prerequisites);
      assert v in adjacency0[u] <==> DeclaredBefore(defs, i, u, v);
    }
    forall v ensures v in reverse <==> v in Ids(defs) || RequiredBefore(defs, i + 1, v) {
      DeclaredStep(defs, i, id, v);
    }
    forall u, v ensures v in reverse ==> (u in reverse[v] <==> DeclaredBefore(defs, i + 1, u, v)) {
      DeclaredStep(defs, i, u, v);
    }
  }

  lemma DeclaredStep(defs: seq<PermissionDefinition>, i: nat, u: Code, v: Code)
    requires i < |defs|
    ensures RequiredBefore(defs, i + 1, v) <==> RequiredBefore(defs, i, v) || v in defs[i].requiredCodes
    ensures DeclaredBefore(defs, i + 1, u, v) <==>
      DeclaredBefore(defs, i, u, v) || (u == defs[i].id && v in defs[i].requiredCodes)
  {
  }

  /** The third pass. */
  method IndexNodes(defs: seq<PermissionDefinition>, adjacency: map<Code, set<Code>>, reverse: map<Code, set<Code>>)
    returns (nodes: map<Code, DependencyNode>)
    requires AdjacencyUpTo(defs, |defs|, adjacency, reverse)
    ensures NodesUpTo(defs, |defs|, nodes, adjacency, reverse)
  {
    nodes := map[];
    for i := 0 to |defs|
      invariant NodesUpTo(defs, i, nodes, adjacency, reverse)
    {
      var def := defs[i];
      assert def.id in Ids(defs);
      var node := DependencyNode(def, adjacency[def.id], reverse[def.id]);
      NodesStep(defs, i, nodes, adjacency, reverse, node);
      nodes := nodes[def.id := node];
    }
  }

  lemma NodesStep(defs: seq<PermissionDefinition>, i: nat, nodes: map<Code, DependencyNode>,
                  adjacency: map<Code, set<Code>>, reverse: map<Code, set<Code>>, node: DependencyNode)
    requires i < |defs| && NodesUpTo(defs, i, nodes, adjacency, reverse)
    requires defs[i].id in adjacency && defs[i].id in reverse
    requires node == DependencyNode(defs[i], adjacency[defs[i].id], reverse[defs[i].id])
    ensures NodesUpTo(defs, i + 1, nodes[defs[i].id := node], adjacency, reverse)
  {
    var after := nodes[defs[i].id := node];
    assert after.Keys == nodes.Keys + {defs[i].id};
    assert IdsBefore(defs, i + 1) == IdsBefore(defs, i) + {defs[i].id};
    forall u | u in after ensures LastBefore(defs, i + 1, u, after[u].definition) {
      if u != defs[i].id {
        LastStep(defs, i, u, nodes[u].definition);
      }
    }
  }

  lemma LastStep(defs: seq<PermissionDefinition>, i: nat, id: Code, d: PermissionDefinition)
    requires i < |defs| && LastBefore(defs, i, id, d) && defs[i].id != id
    ensures LastBefore(defs, i + 1, id, d)
  {
    var k :| 0 <= k < i && defs[k] == d && d.id == id && forall j :: k < j < i ==> defs[j].id != id;
    assert forall j :: k < j < i + 1 ==> defs[j].id != id;
  }

  /** The two adjacency maps are transposes of one another. */
  lemma AdjacencyMapsAreTransposes(defs: seq<PermissionDefinition>, g: Graph, u: Code, v: Code)
    requires BuiltFrom(defs, g)
    ensures (u in g.nodes && v in g.nodes[u].prerequisites) <==> (v in g.reverse && u in g.reverse[v])
    ensures v in g.nodes ==> (u in g.nodes[v].dependents <==> Edge(g, u, v))
  {
    if v in g.reverse && u in g.reverse[v] {
      assert Declares(defs, u, v);
      var i :| 0 <= i < |defs| && defs[i].id == u && v in defs[i].requiredCodes;
      assert u in Ids(defs);
    }
  }

  /** With unique ids every node carries its own definition, and its prerequisites and dependents are
      exactly what the definitions say of that id. */
  lemma UniqueIdsMakeNodesExact(defs: seq<PermissionDefinition>, g: Graph, i: nat)
    requires BuiltFrom(defs, g) && UniqueIds(defs) && i < |defs|
    ensures defs[i].id in g.nodes && g.nodes[defs[i].id].definition == defs[i]
    ensures g.nodes[defs[i].id].prerequisites == set req | req in defs[i].requiredCodes
    ensures g.nodes[defs[i].id].dependents == set k | 0 <= k < |defs| && defs[i].id in defs[k].requiredCodes :: defs[k].id
  {
    var node := g.nodes[defs[i].id];
    forall req ensures req in node.prerequisites <==> req in defs[i].requiredCodes {
      assert req in node.prerequisites <==> DeclaredBefore(defs, |defs|, defs[i].id, req);
    }
    forall u ensures u in node.dependents <==> exists k :: 0 <= k < |defs| && defs[k].id == u && defs[i].id in defs[k].requiredCodes {
      assert u in node.dependents <==> DeclaredBefore(defs, |defs|, u, defs[i].id);
    }
  }
}
