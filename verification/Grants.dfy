/**
 Capability grants and the ledger that records them (`src/v2/grant.rs`): chains of authority
 of any length, their openness, and what issuing and revoking do to them.
 */
module Grants {
  import opened Wrappers
  import opened Text
  import opened Verifications
  import opened Timestamps
  import opened OrgCharts

  datatype Scope = Scope(name: string, delegable: bool)

  datatype Grant = Grant(
    grantId: string, grantor: string, grantee: string, scopes: seq<Scope>,
    validFrom: string, validUntil: string, parent: Option<string>, peer: Option<string>)

  datatype GrantError =
    | NotDelegable(name: string)
    | UnknownGrant(id: string)
    | ClosedGrant(id: string)
    | ChainMismatch(grantor: string, grantee: string)
    | BadWindow(from: string, until: string)
    | MalformedId(id: string)
    | BadName(urn: string)
    | BadTimestamp(at: string)
    | DuplicateGrant(id: string)
    | CycleAt(id: string)

  const DEPLOYMENT_CHARTERER := "deployment"

  predicate HexId(prefix: string, id: string) {
    prefix <= id && |id| - |prefix| >= 12 && AllHex(id[|prefix|..])
  }

  function CheckShape(g: Grant): Result<Unit, GrantError> {
    if !HexId("g-", g.grantId) then Failure(MalformedId(g.grantId))
    else if !(g.parent.None? && g.grantor == DEPLOYMENT_CHARTERER) && !AgentUrn(g.grantor) then Failure(BadName(g.grantor))
    else if !AgentUrn(g.grantee) then Failure(BadName(g.grantee))
    else if g.peer.Some? && !AgentUrn(g.peer.value) then Failure(BadName(g.peer.value))
    else if !ValidTimestamp(g.validFrom) then Failure(BadTimestamp(g.validFrom))
    else if !ValidTimestamp(g.validUntil) then Failure(BadTimestamp(g.validUntil))
    else if TextBefore(g.validUntil, g.validFrom) then Failure(BadWindow(g.validFrom, g.validUntil))
    else Success(Unit)
  }

  predicate WindowOpen(g: Grant, at: string) {
    UpTo(g.validFrom, at) && UpTo(at, g.validUntil)
  }

  /** What a scope's name maps to: of several entries the last one counts. */
  function Upstream(scopes: seq<Scope>, name: string): Option<bool> {
    if scopes == [] then None
    else if scopes[|scopes| - 1].name == name then Some(scopes[|scopes| - 1].delegable)
    else Upstream(scopes[..|scopes| - 1], name)
  }

  // ------------------------------------------------------ untrusted charts

  function ChartFault(org: OrgChart, child: string): Option<GrantError>
    requires child in org.parentOf
  {
    if !AgentUrn(child) then Some(BadName(child))
    else if !AgentUrn(org.parentOf[child]) then Some(BadName(org.parentOf[child]))
    else if CheckedChain(org, child).Failure? then Some(CycleAt(CheckedChain(org, child).error.at))
    else None
  }

  /** In the order of their names, the first child there is something wrong with. */
  ghost predicate IsFirstFault(org: OrgChart, child: string) {
    child in org.parentOf && ChartFault(org, child).Some?
    && forall x | x in org.parentOf && ChartFault(org, x).Some? :: UpTo(child, x)
  }

  lemma SomeFaultFirst(org: OrgChart) returns (child: string)
    requires !ValidChart(org)
    ensures IsFirstFault(org, child)
  {
    var faulty := set x | x in org.parentOf && ChartFault(org, x).Some?;
    var x :| x in org.parentOf && ChartFault(org, x).Some?;
    assert x in faulty;
    child := FirstOf(faulty);
  }

  /** What checking a chart answers: the fault of the first faulty child. */
  ghost function ChartOutcome(org: OrgChart): (r: Result<Unit, GrantError>)
    ensures r.Success? <==> ValidChart(org)
  {
    if ValidChart(org) then Success(Unit)
    else
      assert exists x :: IsFirstFault(org, x) by { var x := SomeFaultFirst(org); }
      var child :| IsFirstFault(org, child);
      Failure(ChartFault(org, child).value)
  }

  method ValidateChart(org: OrgChart) returns (r: Result<Unit, GrantError>)
    ensures r == ChartOutcome(org)
  {
    hide AgentUrn, CheckedChain, UpTo;
    var rest := org.parentOf.Keys;
    while rest != {}
      invariant rest <= org.parentOf.Keys
      invariant forall x | x in org.parentOf && x !in rest :: ChartFault(org, x).None?
    {
      ghost var least := FirstOf(rest);
      var child :| child in rest && forall x | x in rest :: UpTo(child, x);
      var fault := ChartFault(org, child);
      if fault.Some? {
        assert IsFirstFault(org, child);
        forall x | IsFirstFault(org, x) ensures x == child {
          UpToTotal(x, child);
        }
        return Failure(fault.value);
      }
      rest := rest - {child};
    }
    return Success(Unit);
  }

  // --------------------------------------------------------------- scopes

  /** The first requested scope that may not be passed on. */
  function FirstRefused(scopes: seq<Scope>, upstream: seq<Scope>): Option<string> {
    if scopes == [] then None
    else if Upstream(upstream, scopes[0].name) != Some(true) then Some(scopes[0].name)
    else FirstRefused(scopes[1..], upstream)
  }

  // --------------------------------------------------------- ledger values

  /** A ledger with the ids of its grants in the order they were recorded. */
  datatype Ledger = Ledger(grants: map<string, Grant>, revoked: set<string>, order: seq<string>)

  const EMPTY := Ledger(map[], {}, [])

  /** Every grant is recorded once, under its own id and after its parent. */
  ghost predicate Recorded(l: Ledger) {
    && (forall id :: id in l.grants <==> id in l.order)
    && (forall i, j | 0 <= i < j < |l.order| :: l.order[i] != l.order[j])
    && (forall id | id in l.grants :: l.grants[id].grantId == id)
    && (forall i | 0 <= i < |l.order| && l.grants[l.order[i]].parent.Some? ::
          Precedes(l.order, i, l.grants[l.order[i]].parent.value))
    && (forall id | id in l.revoked :: id in l.grants)
  }

  ghost predicate Precedes(order: seq<string>, i: nat, id: string)
    requires i <= |order|
  {
    id in order[..i]
  }

  ghost function Place(order: seq<string>, id: string): (i: nat)
    requires id in order
    ensures i < |order| && order[i] == id
  {
    var i: nat :| i < |order| && order[i] == id;
    i
  }

  /** Parents come first: going up a chain goes back in the record. */
  lemma ParentEarlier(l: Ledger, id: string)
    requires Recorded(l) && id in l.grants && l.grants[id].parent.Some?
    ensures var p := l.grants[id].parent.value; p in l.grants && Place(l.order, p) < Place(l.order, id)
  {
    var i := Place(l.order, id);
    assert Precedes(l.order, i, l.grants[l.order[i]].parent.value);
    var p := l.grants[id].parent.value;
    var j :| 0 <= j < i && l.order[..i][j] == p;
    assert l.order[j] == p;
  }

  /** A grant and its ancestors, upwards. */
  ghost function Ancestry(l: Ledger, id: string): (r: seq<string>)
    requires Recorded(l) && id in l.grants
    ensures |r| > 0 && r[0] == id && forall x | x in r :: x in l.grants
    decreases Place(l.order, id)
  {
    if l.grants[id].parent.None? then [id]
    else
      ParentEarlier(l, id);
      [id] + Ancestry(l, l.grants[id].parent.value)
  }

  ghost predicate OpenItself(l: Ledger, id: string, at: string)
    requires id in l.grants
  {
    id !in l.revoked && WindowOpen(l.grants[id], at)
  }

  /** A grant is open when it and all its ancestors are. */
  ghost predicate OpenAt(l: Ledger, id: string, at: string)
    requires Recorded(l) && id in l.grants
  {
    forall x | x in Ancestry(l, id) :: OpenItself(l, x, at)
  }

  lemma OpenStep(l: Ledger, id: string, at: string)
    requires Recorded(l) && id in l.grants
    ensures l.grants[id].parent.Some? ==> l.grants[id].parent.value in l.grants
    ensures OpenAt(l, id, at) <==>
              OpenItself(l, id, at) && (l.grants[id].parent.Some? ==> OpenAt(l, l.grants[id].parent.value, at))
  {
    if l.grants[id].parent.Some? {
      ParentEarlier(l, id);
      var up := Ancestry(l, l.grants[id].parent.value);
      assert forall x :: x in Ancestry(l, id) <==> x == id || x in up;
    }
  }

  predicate Names(g: Grant, scope: string) {
    exists i :: 0 <= i < |g.scopes| && g.scopes[i].name == scope
  }

  predicate MayPassOn(g: Grant, scope: string) {
    exists i :: 0 <= i < |g.scopes| && g.scopes[i] == Scope(scope, true)
  }

  ghost predicate Holds(l: Ledger, id: string, agent: string, at: string)
    requires Recorded(l)
  {
    id in l.grants && l.grants[id].grantee == agent && ValidTimestamp(at) && OpenAt(l, id, at)
  }

  ghost predicate Covers(l: Ledger, agent: string, scope: string, at: string)
    requires Recorded(l)
  {
    exists id :: Holds(l, id, agent, at) && Names(l.grants[id], scope)
  }

  /** The scope that stands for collaborating across branches on a class of tasks. */
  function CrossBranch(taskClass: string): string {
    "cross-branch/" + taskClass
  }

  ghost predicate Standing(l: Ledger, id: string, agent: string, scope: string, at: string)
    requires Recorded(l)
  {
    Holds(l, id, agent, at) && Names(l.grants[id], scope)
  }

  /** Of the standing grants the one with the first id. */
  ghost predicate IsFirstStanding(l: Ledger, r: Option<string>, agent: string, scope: string, at: string)
    requires Recorded(l)
  {
    match r
    case None => forall id :: !Standing(l, id, agent, scope, at)
    case Some(first) => Standing(l, first, agent, scope, at) && forall id | Standing(l, id, agent, scope, at) :: UpTo(first, id)
  }

  /** No restriction on the chain is to anybody but `peer`. */
  ghost predicate OnlyTo(l: Ledger, id: string, peer: string)
    requires Recorded(l) && id in l.grants
  {
    forall x | x in Ancestry(l, id) && l.grants[x].peer.Some? :: l.grants[x].peer.value == peer
  }

  ghost predicate Restricted(l: Ledger, id: string)
    requires Recorded(l) && id in l.grants
  {
    exists x :: x in Ancestry(l, id) && l.grants[x].peer.Some?
  }

  /** Peers that a grant or an ancestor of it is restricted to all are `peer`, and only siblings use such a grant. */
  ghost predicate PeerAllowed(l: Ledger, org: OrgChart, id: string, requester: string, peer: string)
    requires Recorded(l) && id in l.grants
  {
    OnlyTo(l, id, peer) && (Restricted(l, id) ==> SharesParent(org, requester, peer))
  }

  /** The earliest of an expiry and the ends of some grants. */
  function Earliest(grants: map<string, Grant>, ids: seq<string>, expires: string): string
    requires forall x | x in ids :: x in grants
  {
    if ids == [] then expires else Earliest(grants, ids[1..], Earlier(expires, grants[ids[0]].validUntil))
  }

  // ------------------------------------------------------------ the ledger

  /** The effect of a successful issue. */
  function Issued(l: Ledger, g: Grant): Ledger {
    Ledger(l.grants[g.grantId := g], l.revoked, l.order + [g.grantId])
  }

  function Revoked(l: Ledger, id: string): Ledger {
    l.(revoked := l.revoked + {id})
  }

  /** What issuing answers, before anything is recorded. */
  ghost function IssueOutcome(l: Ledger, g: Grant, at: string): Result<Unit, GrantError>
    requires Recorded(l)
  {
    if CheckShape(g).Failure? then CheckShape(g)
    else if !ValidTimestamp(at) then Failure(BadTimestamp(at))
    else if g.grantId in l.grants then if l.grants[g.grantId] == g then Success(Unit) else Failure(DuplicateGrant(g.grantId))
    else if g.parent.None? then Success(Unit)
    else
      var p := g.parent.value;
      if p !in l.grants then Failure(UnknownGrant(p))
      else if !OpenAt(l, p, at) then Failure(ClosedGrant(p))
      else if l.grants[p].grantee != g.grantor then Failure(ChainMismatch(g.grantor, l.grants[p].grantee))
      else
        match FirstRefused(g.scopes, l.grants[p].scopes)
        case Some(name) => Failure(NotDelegable(name))
        case None => Success(Unit)
  }

  lemma IssuedRecorded(l: Ledger, g: Grant, at: string)
    requires Recorded(l) && IssueOutcome(l, g, at).Success? && g.grantId !in l.grants
    ensures Recorded(Issued(l, g))
  {
    hide OpenAt, CheckShape, FirstRefused;
    var l' := Issued(l, g);
    var n := |l.order|;
    forall i | 0 <= i < |l'.order| && l'.grants[l'.order[i]].parent.Some?
      ensures Precedes(l'.order, i, l'.grants[l'.order[i]].parent.value)
    {
      if i < n {
        assert l'.order[..i] == l.order[..i] && l.order[i] in l.order;
        assert Precedes(l.order, i, l.grants[l.order[i]].parent.value);
      } else {
        assert l'.order[..i] == l.order;
      }
    }
  }

  /** The loop that looks for a scope that may not be passed on. */
  method CheckScopes(scopes: seq<Scope>, upstream: seq<Scope>) returns (r: Result<Unit, GrantError>)
    ensures r == match FirstRefused(scopes, upstream) case Some(name) => Failure(NotDelegable(name)) case None => Success(Unit)
  {
    for i := 0 to |scopes|
      invariant FirstRefused(scopes, upstream) == FirstRefused(scopes[i..], upstream)
    {
      assert scopes[i..][0] == scopes[i] && scopes[i..][1..] == scopes[i + 1..];
      if Upstream(upstream, scopes[i].name) != Some(true) {
        return Failure(NotDelegable(scopes[i].name));
      }
    }
    return Success(Unit);
  }

  class GrantLedger {
    var grants: map<string, Grant>
    var revoked: set<string>
    ghost var order: seq<string>

    ghost function State(): Ledger
      reads this
    {
      Ledger(grants, revoked, order)
    }

    ghost predicate Valid()
      reads this
    {
      Recorded(State())
    }

    constructor ()
      ensures Valid() && State() == EMPTY
    {
      grants, revoked, order := map[], {}, [];
    }

    /** Enforces the rule that authority only narrows, and records the grant. */
    method Issue(g: Grant, at: string) returns (r: Result<Unit, GrantError>)
      requires Valid()
      modifies this
      ensures Valid()
      ensures r == IssueOutcome(old(State()), g, at)
      ensures State() == if r.Success? && g.grantId !in old(grants) then Issued(old(State()), g) else old(State())
    {
      hide Recorded, OpenAt, FirstRefused, CheckShape, Upstream, ValidTimestamp;
      var _ :- CheckShape(g);
      if !ValidTimestamp(at) {
        return Failure(BadTimestamp(at));
      }
      if g.grantId in grants {
        return if grants[g.grantId] == g then Success(Unit) else Failure(DuplicateGrant(g.grantId));
      }
      if g.parent.Some? {
        var parentId := g.parent.value;
        if parentId !in grants {
          return Failure(UnknownGrant(parentId));
        }
        var parent := grants[parentId];
        // The timestamp and the parent are good, so this cannot fail.
        var open := IsOpen(parentId, at);
        if !open.value {
          return Failure(ClosedGrant(parentId));
        }
        if parent.grantee != g.grantor {
          return Failure(ChainMismatch(g.grantor, parent.grantee));
        }
        var _ :- CheckScopes(g.scopes, parent.scopes);
      }
      IssuedRecorded(State(), g, at);
      grants := grants[g.grantId := g];
      order := order + [g.grantId];
      r := Success(Unit);
    }

    method Revoke(id: string) returns (r: Result<Unit, GrantError>)
      requires Valid()
      modifies this`revoked
      ensures Valid()
      ensures r == if id in grants then Success(Unit) else Failure(UnknownGrant(id))
      ensures State() == if id in grants then Revoked(old(State()), id) else old(State())
    {
      if id !in grants {
        return Failure(UnknownGrant(id));
      }
      revoked := revoked + {id};
      r := Success(Unit);
    }

    /** Walks up the chain; it never comes to a grant twice and never misses one. */
    method IsOpen(id: string, at: string) returns (r: Result<bool, GrantError>)
      requires Valid()
      ensures if !ValidTimestamp(at) then r == Failure(BadTimestamp(at))
              else if id !in grants then r == Failure(UnknownGrant(id))
              else r.Success? && (r.value <==> OpenAt(State(), id, at))
    {
      hide Recorded, OpenAt, ValidTimestamp, WindowOpen;
      if !ValidTimestamp(at) {
        return Failure(BadTimestamp(at));
      }
      var current := Some(id);
      var seen: set<string> := {};
      while current.Some?
        invariant id in grants && current.Some? ==> current.value in grants
        invariant id !in grants ==> current == Some(id) && seen == {}
        invariant id in grants ==> (OpenAt(State(), id, at) <==> (current.Some? ==> OpenAt(State(), current.value, at)))
        invariant forall x | x in seen :: x in order && (current.Some? ==> current.value in order && Place(order, current.value) < Place(order, x))
        decreases if current.Some? && current.value in order then Place(order, current.value) + 1 else 0
      {
        var here := current.value;
        if here in seen {
          assert false;
        }
        seen := seen + {here};
        if here !in grants {
          return Failure(UnknownGrant(here));
        }
        OpenStep(State(), here, at);
        OrderKnows(State(), here);
        var g := grants[here];
        if here in revoked || !WindowOpen(g, at) {
          return Success(false);
        }
        if g.parent.Some? {
          ParentEarlier(State(), here);
          OrderKnows(State(), g.parent.value);
        }
        current := g.parent;
      }
      return Success(true);
    }

    method HeldBy(agent: string, at: string) returns (ids: set<string>)
      requires Valid()
      ensures forall id :: id in ids <==> Holds(State(), id, agent, at)
    {
      hide Recorded, OpenAt, ValidTimestamp;
      ids := {};
      var rest := grants.Keys;
      while rest != {}
        invariant rest <= grants.Keys
        invariant forall id :: id in ids <==> id !in rest && Holds(State(), id, agent, at)
      {
        var id :| id in rest;
        if grants[id].grantee == agent {
          var open := IsOpen(id, at);
          if open == Success(true) {
            ids := ids + {id};
          }
        }
        rest := rest - {id};
      }
    }

    method Covered(agent: string, scope: string, at: string) returns (b: bool)
      requires Valid()
      ensures b <==> Covers(State(), agent, scope, at)
    {
      hide Recorded, OpenAt, ValidTimestamp;
      var ids := HeldBy(agent, at);
      b := exists id :: id in ids && Names(grants[id], scope);
    }

    method Preauthorizes(agent: string, taskClass: string, at: string) returns (r: Option<string>)
      requires Valid()
      ensures IsFirstStanding(State(), r, agent, CrossBranch(taskClass), at)
    {
      hide Recorded, OpenAt, ValidTimestamp, UpTo;
      var wanted := CrossBranch(taskClass);
      var held := HeldBy(agent, at);
      var standing := set id | id in held && Names(grants[id], wanted);
      if standing == {} {
        forall id ensures !Standing(State(), id, agent, wanted, at) {
          assert id !in standing;
        }
        return None;
      }
      ghost var first := FirstOf(standing);
      var id :| id in standing && forall x | x in standing :: UpTo(id, x);
      return Some(id);
    }

    /** Walks up the chain without a guard: in a ledger of this kind it ends and finds every parent. */
    method AllowsPeer(id: string, org: OrgChart, requester: string, peer: string) returns (r: Result<bool, GrantError>)
      requires Valid()
      ensures if id !in grants then r == Failure(UnknownGrant(id))
              else r.Success? && (r.value <==> PeerAllowed(State(), org, id, requester, peer))
    {
      hide Recorded, Ancestry, OnlyTo, Restricted, SharesParent;
      if id !in grants {
        return Failure(UnknownGrant(id));
      }
      var current := Some(id);
      var restricted := false;
      OrderKnows(State(), id);
      while current.Some?
        invariant current.Some? ==> current.value in grants && current.value in order
        invariant OnlyTo(State(), id, peer) <==> (current.Some? ==> OnlyTo(State(), current.value, peer))
        invariant Restricted(State(), id) <==> restricted || (current.Some? && Restricted(State(), current.value))
        decreases if current.Some? then Place(order, current.value) + 1 else 0
      {
        var here := current.value;
        PeersStep(State(), here, peer);
        var g := grants[here];
        if g.peer.Some? {
          restricted := true;
          if g.peer.value != peer {
            return Success(false);
          }
        }
        current := g.parent;
        if current.Some? {
          OrderKnows(State(), current.value);
        }
      }
      if restricted && !SharesParent(org, requester, peer) {
        return Success(false);
      }
      return Success(true);
    }

    /** The clamp of an expiry to every window of a chain. */
    method ClampedExpiry(id: string, expires: string) returns (r: string)
      requires Valid() && id in grants
      ensures r == Earliest(grants, Ancestry(State(), id), expires)
    {
      hide Recorded, Ancestry, Earlier;
      r := expires;
      var current := Some(id);
      OrderKnows(State(), id);
      while current.Some?
        invariant current.Some? ==> current.value in grants && current.value in order
        invariant Earliest(grants, Ancestry(State(), id), expires)
                  == Earliest(grants, if current.Some? then Ancestry(State(), current.value) else [], r)
        decreases if current.Some? then Place(order, current.value) + 1 else 0
      {
        var here := current.value;
        AncestryStep(State(), here);
        var g := grants[here];
        assert Ancestry(State(), here)[1..] == if g.parent.Some? then Ancestry(State(), g.parent.value) else [];
        r := Earlier(r, g.validUntil);
        current := g.parent;
        if current.Some? {
          OrderKnows(State(), current.value);
        }
      }
    }
  }

  /** Going up one step. */
  lemma AncestryStep(l: Ledger, id: string)
    requires Recorded(l) && id in l.grants
    ensures match l.grants[id].parent
            case None => Ancestry(l, id) == [id]
            case Some(p) => p in l.grants && Place(l.order, p) < Place(l.order, id) && Ancestry(l, id) == [id] + Ancestry(l, p)
  {
    if l.grants[id].parent.Some? {
      ParentEarlier(l, id);
    }
  }

  lemma PeersStep(l: Ledger, id: string, peer: string)
    requires Recorded(l) && id in l.grants
    ensures l.grants[id].parent.Some? ==>
              l.grants[id].parent.value in l.grants && Place(l.order, l.grants[id].parent.value) < Place(l.order, id)
    ensures var g := l.grants[id];
            && (OnlyTo(l, id, peer) <==> (g.peer.Some? ==> g.peer.value == peer) && (g.parent.Some? ==> OnlyTo(l, g.parent.value, peer)))
            && (Restricted(l, id) <==> g.peer.Some? || (g.parent.Some? && Restricted(l, g.parent.value)))
  {
    hide Recorded;
    AncestryStep(l, id);
    if l.grants[id].parent.Some? {
      var up := Ancestry(l, l.grants[id].parent.value);
      assert forall x :: x in Ancestry(l, id) <==> x == id || x in up;
    } else {
      assert forall x :: x in Ancestry(l, id) <==> x == id;
    }
  }

  lemma OrderKnows(l: Ledger, id: string)
    requires Recorded(l)
    ensures id in l.grants <==> id in l.order
  {
  }
}
