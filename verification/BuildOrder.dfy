/** Whether an interface contract can be built in some order (`InterfaceContract` in `src/contract.rs`). */
module BuildOrder {
  import opened Wrappers
  import opened Digraphs

  datatype ArtifactSpec = ArtifactSpec(artifactId: string, producedBy: string)

  datatype Dependency = Dependency(consumer: string, consumes: string)

  datatype InterfaceContract = InterfaceContract(artifacts: seq<ArtifactSpec>, dependencies: seq<Dependency>)

  /** What an agent produces, in the contract's order. */
  function ProducedBy(artifacts: seq<ArtifactSpec>, agent: string): (r: seq<ArtifactSpec>)
    ensures forall a :: a in r <==> a in artifacts && a.producedBy == agent
  {
    if artifacts == [] then []
    else (if artifacts[0].producedBy == agent then [artifacts[0]] else []) + ProducedBy(artifacts[1..], agent)
  }

  /** Producing `a` needs `b`: whoever produces `a` consumes `b`. */
  ghost predicate Needs(c: InterfaceContract, a: string, b: string) {
    exists s, d :: NeedsBy(c, a, b, s, d)
  }

  ghost predicate NeedsBy(c: InterfaceContract, a: string, b: string, s: ArtifactSpec, d: Dependency) {
    s in c.artifacts && d in c.dependencies && s.producedBy == d.consumer && s.artifactId == a && d.consumes == b
  }

  type Edges = seq<(string, string)>

  function EdgesFrom(produced: seq<ArtifactSpec>, consumed: string): (r: Edges)
    ensures forall e :: e in r <==> exists s :: s in produced && e == (s.artifactId, consumed)
  {
    if produced == [] then [] else [(produced[0].artifactId, consumed)] + EdgesFrom(produced[1..], consumed)
  }

  function AllEdges(c: InterfaceContract, dependencies: seq<Dependency>): Edges {
    if dependencies == [] then []
    else EdgesFrom(ProducedBy(c.artifacts, dependencies[0].consumer), dependencies[0].consumes) + AllEdges(c, dependencies[1..])
  }

  lemma {:induction false} EdgesAreNeeds(c: InterfaceContract, dependencies: seq<Dependency>, a: string, b: string)
    ensures (a, b) in AllEdges(c, dependencies) <==> exists s, d :: d in dependencies && NeedsBy(c.(dependencies := dependencies), a, b, s, d)
  {
    if dependencies != [] {
      var d0, rest := dependencies[0], dependencies[1..];
      EdgesAreNeeds(c, rest, a, b);
      var first := EdgesFrom(ProducedBy(c.artifacts, d0.consumer), d0.consumes);
      if (a, b) in first {
        var s :| s in ProducedBy(c.artifacts, d0.consumer) && (a, b) == (s.artifactId, d0.consumes);
        assert NeedsBy(c.(dependencies := dependencies), a, b, s, d0);
      } else if (a, b) in AllEdges(c, rest) {
        var s, d :| d in rest && NeedsBy(c.(dependencies := rest), a, b, s, d);
        assert NeedsBy(c.(dependencies := dependencies), a, b, s, d);
      }
      if s, d :| d in dependencies && NeedsBy(c.(dependencies := dependencies), a, b, s, d) {
        if d == d0 {
          assert (a, b) in first;
        } else {
          assert NeedsBy(c.(dependencies := rest), a, b, s, d);
        }
      }
    }
  }

  /** What one node points to, in the order of the edges. */
  function Targets(edges: Edges, node: string): (r: seq<string>)
    ensures forall b :: b in r <==> (node, b) in edges
  {
    if edges == [] then []
    else (if edges[0].0 == node then [edges[0].1] else []) + Targets(edges[1..], node)
  }

  function Nodes(c: InterfaceContract, edges: Edges): set<string> {
    (set s | s in c.artifacts :: s.artifactId) + (set e | e in edges :: e.0) + (set e | e in edges :: e.1)
  }

  function BuildGraph(c: InterfaceContract): Graph {
    var edges := AllEdges(c, c.dependencies);
    map n | n in Nodes(c, edges) :: Targets(edges, n)
  }

  lemma GraphIsNeeds(c: InterfaceContract, a: string, b: string)
    ensures Edge(BuildGraph(c), a, b) <==> Needs(c, a, b)
    ensures Edge(BuildGraph(c), a, b) ==> b in BuildGraph(c) && exists s :: s in c.artifacts && s.artifactId == a
  {
    EdgesAreNeeds(c, c.dependencies, a, b);
    assert c.(dependencies := c.dependencies) == c;
    var edges := AllEdges(c, c.dependencies);
    if (a, b) in edges {
      assert (a, b).0 in Nodes(c, edges) && (a, b).1 in Nodes(c, edges);
    }
  }

  /** Some artifact needs itself, over any number of steps. */
  ghost predicate Circular(c: InterfaceContract) {
    exists x :: OnCycle(BuildGraph(c), x)
  }

  lemma {:induction false} StaysKnown(c: InterfaceContract, p: seq<string>)
    requires Walk(BuildGraph(c), p) && p[0] in BuildGraph(c)
    ensures p[|p| - 1] in BuildGraph(c)
  {
    if |p| > 1 {
      assert Edge(BuildGraph(c), p[0], p[1]);
      GraphIsNeeds(c, p[0], p[1]);
      WalkFrom(BuildGraph(c), p, 1);
      StaysKnown(c, p[1..]);
    }
  }

  /** The check fails exactly when something needs itself, and then names something that does. */
  method CheckAcyclic(c: InterfaceContract) returns (r: Result<Unit, string>)
    ensures r.Success? <==> !Circular(c)
    ensures r.Failure? ==> OnCycle(BuildGraph(c), r.error)
  {
    hide Topological, Reaches, OnCycle, Walk, BuildGraph, Explains;
    var g := BuildGraph(c);
    var w := new Walker();
    StartWalk(g, "");
    for i := 0 to |c.artifacts|
      invariant Colored(g, w.colors, w.order, [])
      invariant forall j | 0 <= j < i :: c.artifacts[j].artifactId in w.order
    {
      var id := c.artifacts[i].artifactId;
      StartWalk(g, id);
      assert [] + [id] == [id];
      ghost var before := w.order;
      var visited := w.Visit(g, id, None, [], 0);
      if visited.Failure? {
        FaultIsCycle(c, id, visited.error);
        return Failure(match visited.error case Cycle(at) => at case Unknown(u) => u);
      }
      GrownKeeps(g, id, before, w.order);
    }
    NothingCircular(c, w.order);
    return Success(Unit);
  }

  lemma ArtifactKnown(c: InterfaceContract, s: ArtifactSpec)
    requires s in c.artifacts
    ensures s.artifactId in BuildGraph(c)
  {
  }

  lemma FaultIsCycle(c: InterfaceContract, id: string, e: WalkError)
    requires (exists s :: s in c.artifacts && s.artifactId == id) && Explains(BuildGraph(c), id, e)
    ensures e.Cycle? && OnCycle(BuildGraph(c), e.at)
  {
    hide BuildGraph, OnCycle;
    var s :| s in c.artifacts && s.artifactId == id;
    ArtifactKnown(c, s);
    if e.Unknown? {
      var p :| Joins(BuildGraph(c), p, id, e.id);
      StaysKnown(c, p);
    }
  }

  lemma NothingCircular(c: InterfaceContract, order: seq<string>)
    requires Topological(BuildGraph(c), order) && forall j | 0 <= j < |c.artifacts| :: c.artifacts[j].artifactId in order
    ensures !Circular(c)
  {
    hide BuildGraph, Topological, Reaches;
    var g := BuildGraph(c);
    forall x ensures !OnCycle(g, x) {
      if OnCycle(g, x) {
        var n :| Edge(g, x, n) && Reaches(g, n, x);
        GraphIsNeeds(c, x, n);
        ReachesItself(g, x);
        OrderedReach(g, order, x, x);
      }
    }
  }
}
