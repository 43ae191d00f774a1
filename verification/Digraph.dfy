/**
 The three-colour depth-first walk that the provenance graph, the attestation graph and the
 build order of an interface contract share (`src/v2/artifact.rs`, `src/v2/verification.rs`,
 `src/contract.rs`), with what it finds stated by paths alone.
 */
module Digraphs {
  import opened Collections
  import opened Wrappers

  /** Known nodes with what they point to; other nodes are unknown. */
  type Graph = map<string, seq<string>>

  datatype WalkError = Cycle(at: string) | Unknown(id: string)

  predicate Edge(g: Graph, a: string, b: string) {
    a in g && b in g[a]
  }

  ghost predicate Walk(g: Graph, p: seq<string>) {
    p != [] && forall i | 0 <= i < |p| - 1 :: Edge(g, p[i], p[i + 1])
  }

  ghost predicate Joins(g: Graph, p: seq<string>, a: string, b: string) {
    Walk(g, p) && p[0] == a && p[|p| - 1] == b
  }

  ghost predicate Reaches(g: Graph, a: string, b: string) {
    exists p :: Joins(g, p, a, b)
  }

  /** Reached by at least one edge. */
  ghost predicate Above(g: Graph, a: string, b: string) {
    exists c :: Edge(g, a, c) && Reaches(g, c, b)
  }

  ghost predicate OnCycle(g: Graph, x: string) {
    Above(g, x, x)
  }

  lemma ReachesItself(g: Graph, a: string)
    ensures Reaches(g, a, a)
  {
    assert Joins(g, [a], a, a);
  }

  lemma ReachesOn(g: Graph, a: string, b: string, c: string)
    requires Reaches(g, a, b) && Reaches(g, b, c)
    ensures Reaches(g, a, c)
  {
    var p :| Joins(g, p, a, b);
    var q :| Joins(g, q, b, c);
    assert Joins(g, p + q[1..], a, c);
  }

  lemma EdgeReaches(g: Graph, a: string, b: string)
    requires Edge(g, a, b)
    ensures Reaches(g, a, b)
  {
    assert Joins(g, [a, b], a, b);
  }

  lemma WalkFrom(g: Graph, p: seq<string>, k: nat)
    requires Walk(g, p) && k < |p|
    ensures Walk(g, p[k..])
  {
    forall i | 0 <= i < |p[k..]| - 1 ensures Edge(g, p[k..][i], p[k..][i + 1]) {
      assert p[k..][i] == p[k + i] && p[k..][i + 1] == p[k + i + 1];
    }
  }

  lemma WalkSnoc(g: Graph, p: seq<string>, c: string)
    requires Walk(g, p) && Edge(g, p[|p| - 1], c)
    ensures Walk(g, p + [c])
  {
  }

  // ------------------------------------------------------ topological order

  /** Every node is known and comes after all it points to. */
  ghost predicate Topological(g: Graph, order: seq<string>) {
    NoRepeats(order) && forall i | 0 <= i < |order| :: order[i] in g && After(g, order, i)
  }

  ghost predicate After(g: Graph, order: seq<string>, i: nat)
    requires i < |order| && order[i] in g
  {
    forall c | c in g[order[i]] :: c in order[..i]
  }

  lemma TopologicalSnoc(g: Graph, order: seq<string>, x: string)
    requires Topological(g, order) && x !in order && x in g && forall c | c in g[x] :: c in order
    ensures Topological(g, order + [x])
  {
    var longer := order + [x];
    forall i | 0 <= i < |longer| ensures longer[i] in g && After(g, longer, i) {
      if i < |order| {
        assert longer[..i] == order[..i] && After(g, order, i);
      } else {
        assert longer[..i] == order;
      }
    }
  }

  /** What stands at `i` only reaches what stands at or before `i`. */
  lemma {:induction false} ReachesBack(g: Graph, order: seq<string>, i: nat, p: seq<string>)
    requires Topological(g, order) && i < |order| && Walk(g, p) && p[0] == order[i]
    ensures p[|p| - 1] in order[..i + 1]
    decreases |p|
  {
    if |p| > 1 {
      assert Edge(g, p[0], p[1]) && After(g, order, i);
      var j :| 0 <= j < i && order[..i][j] == p[1];
      WalkFrom(g, p, 1);
      ReachesBack(g, order, j, p[1..]);
      assert order[..j + 1] <= order[..i + 1];
    }
  }

  /** What has been put in order reaches nothing unknown and no cycle. */
  lemma OrderedReach(g: Graph, order: seq<string>, x: string, y: string)
    requires Topological(g, order) && x in order && Reaches(g, x, y)
    ensures y in order && y in g && !OnCycle(g, y)
  {
    var i: nat :| i < |order| && order[i] == x;
    var p :| Joins(g, p, x, y);
    ReachesBack(g, order, i, p);
    var j: nat :| j < i + 1 && order[..i + 1][j] == y;
    assert order[j] == y && After(g, order, j);
    forall c | Edge(g, y, c) ensures !Reaches(g, c, y) {
      var k: nat :| k < j && order[..j][k] == c;
      if Reaches(g, c, y) {
        var q :| Joins(g, q, c, y);
        ReachesBack(g, order, k, q);
      }
    }
  }

  // --------------------------------------------------------------- the walk

  function Universe(g: Graph): set<string> {
    g.Keys + set a, c | a in g && c in g[a] :: c
  }

  ghost predicate Colored(g: Graph, colors: map<string, bool>, order: seq<string>, open: seq<string>) {
    && (forall x :: (x in colors && !colors[x]) <==> x in open)
    && (forall x :: (x in colors && colors[x]) <==> x in order)
    && NoRepeats(open) && Topological(g, order)
  }

  /** What was put in order since is reached from `id`. */
  ghost predicate Grown(g: Graph, id: string, before: seq<string>, after: seq<string>) {
    before <= after && forall x | x in after && x !in before :: Reaches(g, id, x)
  }

  /** Why a walk from `id` failed. */
  ghost predicate Explains(g: Graph, id: string, e: WalkError) {
    match e
    case Cycle(at) => Reaches(g, id, at) && OnCycle(g, at)
    case Unknown(u) => Reaches(g, id, u) && u !in g
  }

  lemma Begin(g: Graph, colors: map<string, bool>, order: seq<string>, open: seq<string>, id: string)
    requires Colored(g, colors, order, open) && id !in colors
    ensures Colored(g, colors[id := false], order, open + [id])
  {
    hide Topological;
  }

  lemma Finish(g: Graph, colors: map<string, bool>, order: seq<string>, open: seq<string>, id: string)
    requires Colored(g, colors, order, open + [id]) && id in g && forall c | c in g[id] :: c in order
    ensures id in colors && Colored(g, colors[id := true], order + [id], open)
  {
    hide Topological;
    var all := open + [id];
    assert all[|open|] == id;
    forall j | 0 <= j < |open| ensures open[j] != id && open[j] in all {
      assert all[j] == open[j];
    }
    forall i, j | 0 <= i < j < |open| ensures open[i] != open[j] {
      assert all[i] == open[i] && all[j] == open[j];
    }
    assert id in all;
    TopologicalSnoc(g, order, id);
  }

  lemma GrownOn(g: Graph, id: string, child: string, a: seq<string>, b: seq<string>, c: seq<string>)
    requires Grown(g, id, a, b) && Grown(g, child, b, c) && Edge(g, id, child)
    ensures Grown(g, id, a, c)
  {
    hide Reaches;
    forall x | x in c && x !in a ensures Reaches(g, id, x) {
      if x !in b {
        EdgeReaches(g, id, child);
        ReachesOn(g, id, child, x);
      }
    }
  }

  lemma GrownNothing(g: Graph, id: string, a: seq<string>)
    ensures Grown(g, id, a, a)
  {
  }

  lemma GrownKeeps(g: Graph, id: string, a: seq<string>, b: seq<string>)
    requires Grown(g, id, a, b)
    ensures forall x | x in a :: x in b
  {
  }

  lemma GrownSnoc(g: Graph, id: string, a: seq<string>, b: seq<string>)
    requires Grown(g, id, a, b)
    ensures Grown(g, id, a, b + [id])
  {
    hide Reaches;
    ReachesItself(g, id);
  }

  lemma ExplainsUp(g: Graph, id: string, child: string, e: WalkError)
    requires Explains(g, child, e) && Edge(g, id, child)
    ensures Explains(g, id, e)
  {
    hide Reaches, OnCycle;
    EdgeReaches(g, id, child);
    match e
    case Cycle(at) => ReachesOn(g, id, child, at);
    case Unknown(u) => ReachesOn(g, id, child, u);
  }

  /** Nodes still to be coloured, the one at hand included. */
  ghost function Left(g: Graph, colored: set<string>, id: string): nat {
    |Universe(g) + {id} - colored|
  }

  lemma LeftAfter(g: Graph, before: set<string>, after: set<string>, id: string, child: string)
    requires before <= after && Edge(g, id, child)
    ensures Left(g, after, child) <= Left(g, before, id)
  {
    SubsetCount(Universe(g) + {child} - after, Universe(g) + {id} - before);
  }

  lemma LeftLess(g: Graph, colored: set<string>, id: string)
    requires id !in colored
    ensures Left(g, colored + {id}, id) < Left(g, colored, id)
  {
    assert id in Universe(g) + {id} - colored;
    SubsetCount(Universe(g) + {id} - (colored + {id}), Universe(g) + {id} - colored - {id});
  }

  class Walker {
    var colors: map<string, bool>
    var order: seq<string>

    constructor ()
      ensures colors == map[] && order == []
    {
      colors, order := map[], [];
    }

    /**
     Visits `id`, to which `path` leads by edges. The nodes of the path from `skip` on are in
     progress: where the start itself is not coloured, `skip` is one, and `root` may name the
     start so that coming back to it is noticed at once.
     */
    method Visit(g: Graph, id: string, root: Option<string>, ghost path: seq<string>, ghost skip: nat)
      returns (r: Result<Unit, WalkError>)
      requires skip <= |path| && Walk(g, path + [id]) && Colored(g, colors, order, path[skip..])
      requires root.Some? ==> skip > 0 && path[0] == root.value
      modifies this
      ensures r.Success? ==>
                Colored(g, colors, order, path[skip..]) && id in order && Grown(g, id, old(order), order)
                && old(colors).Keys <= colors.Keys
      ensures r.Success? && root.Some? && root.value !in old(order) ==> root.value !in order
      ensures r.Failure? ==> Explains(g, id, r.error)
      decreases Left(g, colors.Keys, id), 0
    {
      hide Walk, Topological, Left, Reaches, OnCycle;
      if id in colors {
        if colors[id] {
          return Success(Unit);
        }
        BackOnPath(g, path, skip, id);
        return Failure(Cycle(id));
      }
      if Some(id) == root {
        assert path[0..][0] == id;
        BackOnPath(g, path, 0, id);
        return Failure(Cycle(id));
      }
      Begin(g, colors, order, path[skip..], id);
      LeftLess(g, colors.Keys, id);
      assert colors[id := false].Keys == colors.Keys + {id};
      colors := colors[id := false];
      if id !in g {
        ReachesItself(g, id);
        return Failure(Unknown(id));
      }
      r := Children(g, id, root, path, skip);
    }

    /** The loop over what `id` points to. */
    method Children(g: Graph, id: string, root: Option<string>, ghost path: seq<string>, ghost skip: nat)
      returns (r: Result<Unit, WalkError>)
      requires skip <= |path| && Walk(g, path + [id]) && id in g
      requires Colored(g, colors, order, path[skip..] + [id])
      requires root.Some? ==> skip > 0 && path[0] == root.value && id != root.value
      modifies this
      ensures r.Success? ==>
                Colored(g, colors, order, path[skip..]) && id in order && Grown(g, id, old(order), order)
                && old(colors).Keys <= colors.Keys
      ensures r.Success? && root.Some? && root.value !in old(order) ==> root.value !in order
      ensures r.Failure? ==> Explains(g, id, r.error)
      decreases Left(g, colors.Keys, id), 1
    {
      hide Walk, Topological, Left, Reaches, Colored, Explains, Grown;
      ghost var start := colors.Keys;
      GrownNothing(g, id, order);
      assert (path + [id])[skip..] == path[skip..] + [id];
      for i := 0 to |g[id]|
        invariant Colored(g, colors, order, path[skip..] + [id])
        invariant Grown(g, id, old(order), order) && start <= colors.Keys
        invariant forall j | 0 <= j < i :: g[id][j] in order
        invariant root.Some? && root.value !in old(order) ==> root.value !in order
      {
        var child := g[id][i];
        ghost var before := order;
        WalkSnoc(g, path + [id], child);
        LeftAfter(g, start, colors.Keys, id, child);
        r := Visit(g, child, root, path + [id], skip);
        if r.Failure? {
          ExplainsUp(g, id, child, r.error);
          return;
        }
        GrownOn(g, id, child, old(order), before, order);
        GrownKeeps(g, child, before, order);
      }
      Finish(g, colors, order, path[skip..], id);
      GrownSnoc(g, id, old(order), order);
      colors := colors[id := true];
      order := order + [id];
      r := Success(Unit);
    }
  }

  /** Coming back to a node of the path closes a cycle. */
  lemma BackOnPath(g: Graph, path: seq<string>, skip: nat, id: string)
    requires skip <= |path| && Walk(g, path + [id]) && id in path[skip..]
    ensures Explains(g, id, Cycle(id))
  {
    var k :| skip <= k < |path| && path[k] == id;
    var w := path + [id];
    var loop := w[k + 1..];
    assert Edge(g, w[k], w[k + 1]);
    WalkFrom(g, w, k + 1);
    assert Joins(g, loop, w[k + 1], id);
    ReachesItself(g, id);
  }

  // ------------------------------------------------- everything above a start

  /** `order` lists exactly what is above `start`, once each, each after all it points to. */
  ghost predicate ListsAbove(g: Graph, start: string, order: seq<string>) {
    Topological(g, order) && forall x :: x in order <==> Above(g, start, x)
  }

  /** Nothing above `start` is unknown or on a cycle. */
  ghost predicate SoundAbove(g: Graph, start: string) {
    forall x | Above(g, start, x) :: x in g && !OnCycle(g, x)
  }

  ghost predicate Faults(g: Graph, start: string, e: WalkError) {
    match e
    case Cycle(at) => Above(g, start, at) && OnCycle(g, at)
    case Unknown(u) => Above(g, start, u) && u !in g
  }

  lemma FaultOfChild(g: Graph, start: string, child: string, e: WalkError)
    requires Edge(g, start, child) && Explains(g, child, e)
    ensures Faults(g, start, e) && !SoundAbove(g, start)
  {
    hide Reaches, OnCycle;
    match e
    case Cycle(at) => assert Above(g, start, at);
    case Unknown(u) => assert Above(g, start, u);
  }

  /** Everything listed, and every child listed: then the list is exact and all above is sound. */
  lemma ListIsExact(g: Graph, start: string, order: seq<string>)
    requires start in g && Topological(g, order) && (forall c | c in g[start] :: c in order)
    requires forall x | x in order :: Above(g, start, x)
    ensures ListsAbove(g, start, order) && SoundAbove(g, start)
  {
    hide Reaches, Topological, OnCycle;
    forall x | Above(g, start, x) ensures x in order && x in g && !OnCycle(g, x) {
      var c :| Edge(g, start, c) && Reaches(g, c, x);
      OrderedReach(g, order, c, x);
    }
  }

  /** The walk over all that `start` points to; `root` may name the start. */
  method Closure(g: Graph, start: string, root: Option<string>) returns (r: Result<seq<string>, WalkError>)
    requires start in g && (root.Some? ==> root.value == start)
    ensures r.Success? <==> SoundAbove(g, start)
    ensures r.Success? ==> ListsAbove(g, start, r.value)
    ensures r.Failure? ==> Faults(g, start, r.error)
  {
    hide Topological, Reaches, OnCycle, SoundAbove, Faults, ListsAbove, Explains, Walk;
    var w := new Walker();
    StartWalk(g, start);
    for i := 0 to |g[start]|
      invariant Colored(g, w.colors, w.order, [])
      invariant forall j | 0 <= j < i :: g[start][j] in w.order
      invariant forall x | x in w.order :: Above(g, start, x)
    {
      var child := g[start][i];
      ghost var before := w.order;
      assert [start][1..] == [];
      WalkSnoc(g, [start], child);
      var visited := w.Visit(g, child, root, [start], 1);
      if visited.Failure? {
        FaultOfChild(g, start, child, visited.error);
        return Failure(visited.error);
      }
      forall x | x in w.order ensures Above(g, start, x) {
        if x !in before {
          assert Edge(g, start, child) && Reaches(g, child, x);
        }
      }
    }
    ListIsExact(g, start, w.order);
    return Success(w.order);
  }

  lemma StartWalk(g: Graph, start: string)
    ensures Walk(g, [start]) && Colored(g, map[], [], [])
  {
  }
}
