/**
 Declared parent chains and the lowest common supervisor (`OrgChart` in `src/v2/grant.rs`).
 Charts are untrusted: a chain may run into a cycle.
 */
module OrgCharts {
  import opened Collections
  import opened Wrappers
  import opened Verifications

  datatype OrgChart = OrgChart(parentOf: map<string, string>)

  datatype ChartError = Cycle(at: string)

  // -------------------------------------------------------------- chains

  /** Each element is followed by its parent. */
  predicate Links(org: OrgChart, path: seq<string>) {
    forall i | 0 <= i < |path| - 1 :: path[i] in org.parentOf && org.parentOf[path[i]] == path[i + 1]
  }

  /** A whole chain: up to an agent without a parent. */
  predicate IsChain(org: OrgChart, path: seq<string>) {
    path != [] && Links(org, path) && path[|path| - 1] !in org.parentOf
  }

  /** Where a walk has been before it came to its last element. */
  function Passed(path: seq<string>): set<string> {
    set i | 0 <= i < |path| - 1 :: path[i]
  }

  /** The walk upwards from the last element of a path without repetitions. */
  function Climb(org: OrgChart, path: seq<string>): Result<seq<string>, ChartError>
    requires path != [] && NoRepeats(path)
    decreases |org.parentOf.Keys - Passed(path)|
  {
    var current := path[|path| - 1];
    if current !in org.parentOf then Success(path)
    else
      var parent := org.parentOf[current];
      if parent in path then Failure(Cycle(parent))
      else
        LessToClimb(org, path, parent);
        Climb(org, path + [parent])
  }

  lemma LessToClimb(org: OrgChart, path: seq<string>, parent: string)
    requires path != [] && NoRepeats(path) && path[|path| - 1] in org.parentOf
    ensures |org.parentOf.Keys - Passed(path + [parent])| < |org.parentOf.Keys - Passed(path)|
  {
    var current, longer := path[|path| - 1], path + [parent];
    assert longer[|path| - 1] == current;
    forall x | x in Passed(path) ensures x in Passed(longer) {
      var i :| 0 <= i < |path| - 1 && path[i] == x;
      assert longer[i] == x;
    }
    assert current in org.parentOf.Keys - Passed(path);
    SubsetCount(org.parentOf.Keys - Passed(longer), org.parentOf.Keys - Passed(path) - {current});
  }

  function CheckedChain(org: OrgChart, agent: string): Result<seq<string>, ChartError> {
    Climb(org, [agent])
  }

  method WalkChain(org: OrgChart, agent: string) returns (r: Result<seq<string>, ChartError>)
    ensures r == CheckedChain(org, agent)
  {
    var path := [agent];
    var seen := {agent};
    var current := agent;
    while current in org.parentOf
      invariant path != [] && NoRepeats(path) && current == path[|path| - 1]
      invariant forall x :: x in seen <==> x in path
      invariant CheckedChain(org, agent) == Climb(org, path)
      decreases |org.parentOf.Keys - Passed(path)|
    {
      var parent := org.parentOf[current];
      if parent in seen {
        return Failure(Cycle(parent));
      }
      LessToClimb(org, path, parent);
      seen := seen + {parent};
      path := path + [parent];
      current := parent;
    }
    r := Success(path);
  }

  // ---------------------------------------------------- what chains are like

  lemma {:induction false} OneChainEach(org: OrgChart, p: seq<string>, q: seq<string>)
    requires IsChain(org, p) && IsChain(org, q) && p[0] == q[0]
    ensures p == q
  {
    assert |p| > 1 <==> p[0] in org.parentOf;
    assert |q| > 1 <==> q[0] in org.parentOf;
    if |p| > 1 {
      ChainSuffix(org, p, 1);
      ChainSuffix(org, q, 1);
      OneChainEach(org, p[1..], q[1..]);
      assert p == [p[0]] + p[1..] && q == [q[0]] + q[1..];
    }
  }

  lemma ChainSuffix(org: OrgChart, p: seq<string>, i: nat)
    requires IsChain(org, p) && i < |p|
    ensures IsChain(org, p[i..])
  {
  }

  lemma ChainNoRepeats(org: OrgChart, p: seq<string>)
    requires IsChain(org, p)
    ensures NoRepeats(p)
  {
    forall i, j | 0 <= i < j < |p| ensures p[i] != p[j] {
      ChainSuffix(org, p, i);
      ChainSuffix(org, p, j);
      if p[i] == p[j] {
        OneChainEach(org, p[i..], p[j..]);
      }
    }
  }

  /** The walk from `agent` comes to `x` a second time. */
  ghost predicate Revisits(org: OrgChart, agent: string, x: string) {
    exists w: seq<string> :: |w| >= 2 && w[0] == agent && Links(org, w) && w[|w| - 1] == x && x in w[..|w| - 1]
  }

  lemma {:induction false} LinksStayOnChain(org: OrgChart, w: seq<string>, p: seq<string>)
    requires w != [] && Links(org, w) && IsChain(org, p) && w[0] == p[0]
    ensures w <= p
  {
    if |w| > 1 {
      assert w[0] in org.parentOf && |p| > 1;
      assert p[1] == w[1];
      ChainSuffix(org, p, 1);
      LinksStayOnChain(org, w[1..], p[1..]);
    }
  }

  lemma {:induction false} ClimbResult(org: OrgChart, path: seq<string>)
    requires path != [] && NoRepeats(path) && Links(org, path)
    ensures match Climb(org, path)
            case Success(p) => path <= p && IsChain(org, p)
            case Failure(e) => Revisits(org, path[0], e.at)
    decreases |org.parentOf.Keys - Passed(path)|
  {
    var current := path[|path| - 1];
    if current in org.parentOf {
      var parent := org.parentOf[current];
      var w := path + [parent];
      assert Links(org, w);
      if parent in path {
        assert w[..|w| - 1] == path && w[|w| - 1] == parent;
      } else {
        LessToClimb(org, path, parent);
        ClimbResult(org, w);
      }
    }
  }

  /**
   On any chart the walk ends. It yields the one chain of the agent when there is one, and
   fails exactly when it would come to some agent a second time, naming that agent.
   */
  lemma CheckedChainExact(org: OrgChart, agent: string)
    ensures match CheckedChain(org, agent)
            case Success(p) => IsChain(org, p) && p[0] == agent && NoRepeats(p)
                               && (forall q | IsChain(org, q) && q[0] == agent :: q == p)
                               && forall x :: !Revisits(org, agent, x)
            case Failure(e) => Revisits(org, agent, e.at) && forall q | IsChain(org, q) :: q[0] != agent
  {
    ClimbResult(org, [agent]);
    match CheckedChain(org, agent)
    case Success(p) =>
      ChainNoRepeats(org, p);
      forall q | IsChain(org, q) && q[0] == agent ensures q == p {
        OneChainEach(org, q, p);
      }
      forall x ensures !Revisits(org, agent, x) {
        ChainNeverRevisits(org, p, x);
      }
    case Failure(e) =>
      forall q | IsChain(org, q) ensures q[0] != agent {
        ChainNeverRevisits(org, q, e.at);
      }
  }

  lemma ChainNeverRevisits(org: OrgChart, p: seq<string>, x: string)
    requires IsChain(org, p)
    ensures !Revisits(org, p[0], x)
  {
    if Revisits(org, p[0], x) {
      var w: seq<string> :| |w| >= 2 && w[0] == p[0] && Links(org, w) && w[|w| - 1] == x && x in w[..|w| - 1];
      var i :| 0 <= i < |w| - 1 && w[i] == x;
      LinksStayOnChain(org, w, p);
      assert p[i] == w[i] && p[|w| - 1] == w[|w| - 1];
      ChainNoRepeats(org, p);
    }
  }

  // ------------------------------------------------ lowest common supervisor

  function FirstIn(path: seq<string>, wanted: seq<string>): Option<string> {
    if path == [] then None else if path[0] in wanted then Some(path[0]) else FirstIn(path[1..], wanted)
  }

  function Lca(org: OrgChart, a: string, b: string): Option<string> {
    match (CheckedChain(org, a), CheckedChain(org, b))
    case (Success(p), Success(q)) => if p == [] || q == [] then None else FirstIn(p[1..], q[1..])
    case _ => None
  }

  lemma {:induction false} FirstInIs(path: seq<string>, wanted: seq<string>)
    ensures FirstIn(path, wanted).None? ==> forall x | x in path :: x !in wanted
    ensures FirstIn(path, wanted).Some? ==> exists i :: IsFirst(path, wanted, i, FirstIn(path, wanted).value)
  {
    if path == [] {
    } else if path[0] in wanted {
      assert IsFirst(path, wanted, 0, FirstIn(path, wanted).value);
    } else {
      var rest := path[1..];
      FirstInIs(rest, wanted);
      assert FirstIn(path, wanted) == FirstIn(rest, wanted);
      match FirstIn(rest, wanted)
      case None => assert forall x :: x in path <==> x == path[0] || x in rest;
      case Some(m) =>
        var i :| IsFirst(rest, wanted, i, m);
        forall j | 0 <= j < i + 1 ensures path[j] !in wanted {
          assert j > 0 ==> path[j] == rest[j - 1];
        }
        assert IsFirst(path, wanted, i + 1, FirstIn(path, wanted).value);
    }
  }

  predicate IsFirst(path: seq<string>, wanted: seq<string>, i: int, m: string) {
    0 <= i < |path| && path[i] == m && m in wanted && forall j | 0 <= j < i :: path[j] !in wanted
  }

  /** `m` stands above `a` on the chain of `a`. */
  ghost predicate Supervises(org: OrgChart, m: string, a: string) {
    exists p, i :: StandsAt(org, p, i, m, a)
  }

  ghost predicate StandsAt(org: OrgChart, p: seq<string>, i: int, m: string, a: string) {
    IsChain(org, p) && p[0] == a && 1 <= i < |p| && p[i] == m
  }

  /** Everything above `m` on one chain is above `m`. */
  lemma AboveOnChain(org: OrgChart, p: seq<string>, i: nat, j: nat)
    requires IsChain(org, p) && i < j < |p|
    ensures Supervises(org, p[j], p[i])
  {
    ChainSuffix(org, p, i);
    assert StandsAt(org, p[i..], j - i, p[j], p[i]);
  }

  /**
   On any chart, a lowest common supervisor is above both parties, is neither of them, and is
   below every other agent above both; there is none only when no agent is above both, or a
   chain does not end.
   */
  lemma LcaIsLowest(org: OrgChart, a: string, b: string)
    ensures match Lca(org, a, b)
            case Some(m) => Supervises(org, m, a) && Supervises(org, m, b) && m != a && m != b
                            && forall x | Supervises(org, x, a) && Supervises(org, x, b) :: x == m || Supervises(org, x, m)
            case None => forall x :: !(Supervises(org, x, a) && Supervises(org, x, b))
  {
    CheckedChainExact(org, a);
    CheckedChainExact(org, b);
    if CheckedChain(org, a).Success? && CheckedChain(org, b).Success? {
      var p, q := CheckedChain(org, a).value, CheckedChain(org, b).value;
      FirstInIs(p[1..], q[1..]);
      if Lca(org, a, b).Some? {
        LcaFound(org, p, q, Lca(org, a, b).value);
      } else {
        forall x ensures !(Supervises(org, x, a) && Supervises(org, x, b)) {
          if Supervises(org, x, a) && Supervises(org, x, b) {
            OnTail(org, p, x);
            OnTail(org, q, x);
          }
        }
      }
    }
  }

  /** Who supervises the first of a chain is on the rest of it. */
  lemma OnTail(org: OrgChart, p: seq<string>, x: string)
    requires IsChain(org, p) && Supervises(org, x, p[0])
    ensures x in p[1..]
  {
    var p', i :| StandsAt(org, p', i, x, p[0]);
    OneChainEach(org, p', p);
    assert p[1..][i - 1] == x;
  }

  lemma LcaFound(org: OrgChart, p: seq<string>, q: seq<string>, m: string)
    requires IsChain(org, p) && IsChain(org, q) && FirstIn(p[1..], q[1..]) == Some(m)
    ensures Supervises(org, m, p[0]) && Supervises(org, m, q[0]) && m != p[0] && m != q[0]
    ensures forall x | Supervises(org, x, p[0]) && Supervises(org, x, q[0]) :: x == m || Supervises(org, x, m)
  {
    FirstInIs(p[1..], q[1..]);
    ChainNoRepeats(org, p);
    ChainNoRepeats(org, q);
    var i :| IsFirst(p[1..], q[1..], i, m);
    var j :| 0 <= j < |q[1..]| && q[1..][j] == m;
    assert StandsAt(org, p, i + 1, m, p[0]) && StandsAt(org, q, j + 1, m, q[0]);
    forall x | Supervises(org, x, p[0]) && Supervises(org, x, q[0]) ensures x == m || Supervises(org, x, m) {
      OnTail(org, p, x);
      OnTail(org, q, x);
      var k :| 0 <= k < |p[1..]| && p[1..][k] == x;
      if i < k {
        AboveOnChain(org, p, i + 1, k + 1);
      }
    }
  }

  /** Two agents that each supervise the other would be on a cycle. */
  lemma NotMutual(org: OrgChart, x: string, y: string)
    ensures !(Supervises(org, x, y) && Supervises(org, y, x))
  {
    if Supervises(org, x, y) && Supervises(org, y, x) {
      var p, i :| StandsAt(org, p, i, x, y);
      var q, j :| StandsAt(org, q, j, y, x);
      ChainSuffix(org, p, i);
      OneChainEach(org, q, p[i..]);
      assert p[i + j] == y;
      ChainNoRepeats(org, p);
    }
  }

  lemma LcaSymmetric(org: OrgChart, a: string, b: string)
    ensures Lca(org, a, b) == Lca(org, b, a)
  {
    LcaIsLowest(org, a, b);
    LcaIsLowest(org, b, a);
    if Lca(org, a, b).Some? && Lca(org, b, a).Some? && Lca(org, a, b) != Lca(org, b, a) {
      NotMutual(org, Lca(org, a, b).value, Lca(org, b, a).value);
    }
  }

  /** Above both, neither of the two, and below every other agent above both. */
  ghost predicate LowestAbove(org: OrgChart, m: string, a: string, b: string) {
    Supervises(org, m, a) && Supervises(org, m, b) && m != a && m != b
    && forall x | Supervises(org, x, a) && Supervises(org, x, b) :: x == m || Supervises(org, x, m)
  }

  /** There is at most one such agent, and it is the one found. */
  lemma LcaExact(org: OrgChart, m: string, a: string, b: string)
    ensures Lca(org, a, b) == Some(m) <==> LowestAbove(org, m, a, b)
    ensures Lca(org, a, b).None? <==> forall x :: !(Supervises(org, x, a) && Supervises(org, x, b))
  {
    hide Lca, Supervises;
    LcaIsLowest(org, a, b);
    if LowestAbove(org, m, a, b) && Lca(org, a, b).Some? {
      NotMutual(org, m, Lca(org, a, b).value);
    }
  }

  // ------------------------------------------------------------- validation

  /** Every agent's chain ends. */
  ghost predicate Acyclic(org: OrgChart) {
    forall agent :: CheckedChain(org, agent).Success?
  }

  predicate ValidChart(org: OrgChart) {
    forall child | child in org.parentOf ::
      AgentUrn(child) && AgentUrn(org.parentOf[child]) && CheckedChain(org, child).Success?
  }

  lemma ValidIsAcyclic(org: OrgChart)
    requires ValidChart(org)
    ensures Acyclic(org)
  {
  }

  predicate SharesParent(org: OrgChart, a: string, b: string) {
    a != b && a in org.parentOf && b in org.parentOf && org.parentOf[a] == org.parentOf[b]
  }

  /** Siblings meet at their parent. */
  lemma SiblingsMeetAtParent(org: OrgChart, a: string, b: string)
    requires SharesParent(org, a, b) && CheckedChain(org, a).Success?
    ensures CheckedChain(org, b).Success? && Lca(org, a, b) == Some(org.parentOf[a])
  {
    CheckedChainExact(org, a);
    var p := CheckedChain(org, a).value;
    var m := org.parentOf[a];
    assert |p| > 1 && p[1] == m;
    ChainSuffix(org, p, 1);
    var q := [b] + p[1..];
    assert IsChain(org, q);
    CheckedChainExact(org, b);
    assert q[1..] == p[1..] && p[1..][0] == m;
  }

  /** A parent and child with somebody above them meet right above the parent. */
  lemma ParentAndChildMeetAbove(org: OrgChart, child: string, parent: string)
    requires child in org.parentOf && org.parentOf[child] == parent && parent in org.parentOf
    requires CheckedChain(org, child).Success?
    ensures CheckedChain(org, parent).Success?
    ensures Lca(org, child, parent) == Some(org.parentOf[parent]) && Lca(org, parent, child) == Some(org.parentOf[parent])
  {
    CheckedChainExact(org, child);
    var p := CheckedChain(org, child).value;
    assert |p| > 2 && p[1] == parent && p[2] == org.parentOf[parent];
    ChainSuffix(org, p, 1);
    CheckedChainExact(org, parent);
    assert p[1..][1..] == p[2..] && p[2..][0] == p[2] && p[1..][1..][0] == p[2];
    assert p[1..][0] == parent && p[1..][1] == p[2];
    assert parent !in p[2..] by {
      forall k | 0 <= k < |p[2..]| ensures p[2..][k] != parent {
        assert p[2..][k] == p[k + 2];
      }
    }
    assert p[2] in p[2..];
    assert p[1..][1..][0] in p[1..];
    LcaSymmetric(org, child, parent);
  }
}
