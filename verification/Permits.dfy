/**
 Permits for sessions across branches (`CollaborationPermit` in `src/v2/grant.rs`): how they
 are issued, when they are admitted, and for how long an issued one is good.
 */
module Permits {
  import opened Wrappers
  import opened Text
  import opened Verifications
  import opened Timestamps
  import opened OrgCharts
  import opened Grants
  import opened GrantLaws

  datatype CollaborationRequest = CollaborationRequest(
    requestId: string, requester: string, peer: string, taskClass: string, expires: string)

  datatype Basis = ByLca(supervisor: string) | ByPreauthorization(grantId: string)

  datatype Permit = Permit(
    permitId: string, requestId: string, taskClass: string, requester: string, peer: string,
    issuedBy: string, basis: Basis, expires: string)

  datatype PermitError =
    | NotLca(issuer: string, a: string, b: string)
    | NoCommonSupervisor(a: string, b: string)
    | NoPreauthorization(requester: string, class_: string)
    | WrongPair(permitId: string, a: string, b: string)
    | Expired(at: string)
    | OfGrant(error: GrantError)

  predicate ValidRequest(q: CollaborationRequest) {
    HexId("cr-", q.requestId) && AgentUrn(q.requester) && AgentUrn(q.peer)
    && q.requester != q.peer && q.taskClass != "" && ValidTimestamp(q.expires)
  }

  const PEERS_AND_CLASS := "distinct peers and a task class are required"

  function RequestOutcome(q: CollaborationRequest): (r: Result<Unit, GrantError>)
    ensures r.Success? <==> ValidRequest(q)
  {
    if !HexId("cr-", q.requestId) then Failure(MalformedId(q.requestId))
    else if !AgentUrn(q.requester) then Failure(BadName(q.requester))
    else if !AgentUrn(q.peer) then Failure(BadName(q.peer))
    else if q.requester == q.peer || q.taskClass == "" then Failure(NotDelegable(PEERS_AND_CLASS))
    else if !ValidTimestamp(q.expires) then Failure(BadTimestamp(q.expires))
    else Success(Unit)
  }

  /** `m` is on the declared chain of `agent`; a chain that does not end counts as empty. */
  predicate OnChain(org: OrgChart, agent: string, m: string) {
    CheckedChain(org, agent).Success? && m in CheckedChain(org, agent).value
  }

  // ---------------------------------------------------------------- issuing

  /** Only who is above both parties, and below everybody else who is, can issue a permit this way. */
  method IssueByLca(org: OrgChart, q: CollaborationRequest, issuer: string, permitId: string)
    returns (r: Result<Permit, PermitError>)
    ensures r.Success? <==> ValidChart(org) && ValidRequest(q) && LowestAbove(org, issuer, q.requester, q.peer)
    ensures r.Success? ==>
              r.value == Permit(permitId, q.requestId, q.taskClass, q.requester, q.peer, issuer, ByLca(issuer), q.expires)
    ensures r.Failure? ==>
              r.error == if !ValidChart(org) then OfGrant(ChartOutcome(org).error)
                         else if !ValidRequest(q) then OfGrant(RequestOutcome(q).error)
                         else if forall x :: !(Supervises(org, x, q.requester) && Supervises(org, x, q.peer)) then
                           NoCommonSupervisor(q.requester, q.peer)
                         else NotLca(issuer, q.requester, q.peer)
  {
    hide ValidChart, ChartOutcome, ValidRequest, Lca, LowestAbove, Supervises;
    LcaExact(org, issuer, q.requester, q.peer);
    var checked := ValidateChart(org);
    if checked.Failure? {
      return Failure(OfGrant(checked.error));
    }
    var asked := RequestOutcome(q);
    if asked.Failure? {
      return Failure(OfGrant(asked.error));
    }
    var lca := Lca(org, q.requester, q.peer);
    if lca.None? {
      return Failure(NoCommonSupervisor(q.requester, q.peer));
    }
    if issuer != lca.value {
      return Failure(NotLca(issuer, q.requester, q.peer));
    }
    return Success(Permit(permitId, q.requestId, q.taskClass, q.requester, q.peer, issuer, ByLca(lca.value), q.expires));
  }

  /** What a permit that stands on preauthorization grant `id` looks like when issued at `at`. */
  ghost predicate Grounds(org: OrgChart, l: Ledger, q: CollaborationRequest, at: string, id: string)
    requires Recorded(l)
  {
    && ValidChart(org) && ValidRequest(q) && ValidTimestamp(at)
    && Standing(l, id, q.requester, CrossBranch(q.taskClass), at)
    && OnChain(org, q.peer, l.grants[id].grantor) && PeerAllowed(l, org, id, q.requester, q.peer)
    && UpTo(at, Earliest(l.grants, Ancestry(l, id), q.expires))
  }

  ghost function Grounded(l: Ledger, q: CollaborationRequest, id: string, permitId: string): Permit
    requires Recorded(l) && id in l.grants
  {
    Permit(permitId, q.requestId, q.taskClass, q.requester, q.peer, q.requester, ByPreauthorization(id),
           Earliest(l.grants, Ancestry(l, id), q.expires))
  }

  /** Why no permit is issued on preauthorization. */
  ghost predicate Refuses(org: OrgChart, l: Ledger, q: CollaborationRequest, at: string, e: PermitError)
    requires Recorded(l)
  {
    if !ValidChart(org) then e == OfGrant(ChartOutcome(org).error)
    else if !ValidRequest(q) then e == OfGrant(RequestOutcome(q).error)
    else if !ValidTimestamp(at) then e == OfGrant(BadTimestamp(at))
    else if IsFirstStanding(l, None, q.requester, CrossBranch(q.taskClass), at) then
      e == NoPreauthorization(q.requester, q.taskClass)
    else
      exists id :: IsFirstStanding(l, Some(id), q.requester, CrossBranch(q.taskClass), at) && RefusesGrant(org, l, q, at, id, e)
  }

  ghost predicate RefusesGrant(org: OrgChart, l: Ledger, q: CollaborationRequest, at: string, id: string, e: PermitError)
    requires Recorded(l) && id in l.grants
  {
    if !OnChain(org, q.peer, l.grants[id].grantor) || !PeerAllowed(l, org, id, q.requester, q.peer) then
      e == OfGrant(ChainMismatch(l.grants[id].grantor, q.peer))
    else
      var expires := Earliest(l.grants, Ancestry(l, id), q.expires);
      !UpTo(at, expires) && e == Expired(expires)
  }

  /** A permit is issued exactly when the first standing grant is good grounds for it. */
  method IssueByPreauthorization(org: OrgChart, ledger: GrantLedger, q: CollaborationRequest, at: string, permitId: string)
    returns (r: Result<Permit, PermitError>)
    requires ledger.Valid()
    ensures r.Success? ==>
              r.value.basis.ByPreauthorization?
              && var id := r.value.basis.grantId;
                 Grounds(org, ledger.State(), q, at, id)
                 && IsFirstStanding(ledger.State(), Some(id), q.requester, CrossBranch(q.taskClass), at)
                 && r.value == Grounded(ledger.State(), q, id, permitId)
    ensures r.Failure? ==>
              Refuses(org, ledger.State(), q, at, r.error)
              && forall id | IsFirstStanding(ledger.State(), Some(id), q.requester, CrossBranch(q.taskClass), at) ::
                   !Grounds(org, ledger.State(), q, at, id)
  {
    hide ValidChart, ChartOutcome, ValidRequest, ValidTimestamp, Recorded, PeerAllowed, Ancestry, Earliest, UpTo, OnChain, OpenAt;
    FirstStandingUnique(ledger.State(), q.requester, CrossBranch(q.taskClass), at);
    var checked := ValidateChart(org);
    if checked.Failure? {
      return Failure(OfGrant(checked.error));
    }
    var asked := RequestOutcome(q);
    if asked.Failure? {
      return Failure(OfGrant(asked.error));
    }
    if !ValidTimestamp(at) {
      return Failure(OfGrant(BadTimestamp(at)));
    }
    var found := ledger.Preauthorizes(q.requester, q.taskClass, at);
    if found.None? {
      return Failure(NoPreauthorization(q.requester, q.taskClass));
    }
    var id := found.value;
    assert IsFirstStanding(ledger.State(), Some(id), q.requester, CrossBranch(q.taskClass), at);
    var grant := ledger.grants[id];
    var allowed := ledger.AllowsPeer(id, org, q.requester, q.peer);
    if !OnChain(org, q.peer, grant.grantor) || allowed != Success(true) {
      r := Failure(OfGrant(ChainMismatch(grant.grantor, q.peer)));
      assert RefusesGrant(org, ledger.State(), q, at, id, r.error);
      return;
    }
    var expires := ledger.ClampedExpiry(id, q.expires);
    UpToTotal(at, expires);
    if TextBefore(expires, at) {
      r := Failure(Expired(expires));
      assert RefusesGrant(org, ledger.State(), q, at, id, r.error);
      return;
    }
    return Success(Permit(permitId, q.requestId, q.taskClass, q.requester, q.peer, q.requester, ByPreauthorization(id), expires));
  }

  lemma FirstStandingUnique(l: Ledger, agent: string, scope: string, at: string)
    requires Recorded(l)
    ensures forall a, b | IsFirstStanding(l, Some(a), agent, scope, at) && IsFirstStanding(l, Some(b), agent, scope, at) :: a == b
    ensures forall a | IsFirstStanding(l, Some(a), agent, scope, at) :: !IsFirstStanding(l, None, agent, scope, at)
  {
    hide Recorded, Standing, UpTo;
    forall a, b | IsFirstStanding(l, Some(a), agent, scope, at) && IsFirstStanding(l, Some(b), agent, scope, at) ensures a == b {
      UpToTotal(a, b);
    }
  }

  // -------------------------------------------------------------- admission

  predicate PairOf(p: Permit, a: string, b: string) {
    (a == p.requester && b == p.peer) || (a == p.peer && b == p.requester)
  }

  /** What admission asks of a permit, short of its basis. */
  predicate Authorizes(p: Permit, a: string, b: string, at: string) {
    ValidTimestamp(at) && ValidTimestamp(p.expires) && UpTo(at, p.expires) && PairOf(p, a, b)
  }

  /** The basis still stands. */
  ghost predicate BasisStands(org: OrgChart, l: Ledger, p: Permit, a: string, b: string, at: string)
    requires Recorded(l)
  {
    match p.basis
    case ByLca(m) => ValidChart(org) && p.issuedBy == m && Lca(org, a, b) == Some(m)
    case ByPreauthorization(id) =>
      p.issuedBy == p.requester && Standing(l, id, p.requester, CrossBranch(p.taskClass), at)
      && OnChain(org, p.peer, l.grants[id].grantor) && PeerAllowed(l, org, id, p.requester, p.peer)
  }

  /** The first thing wrong with admitting a session under a permit. */
  ghost function AdmissionFault(p: Permit, org: OrgChart, l: Ledger, a: string, b: string, taskClass: string, at: string)
    : (r: Option<PermitError>)
    requires Recorded(l)
    ensures r.None? <==> Authorizes(p, a, b, at) && taskClass != "" && p.taskClass == taskClass && BasisStands(org, l, p, a, b, at)
  {
    if !ValidTimestamp(at) then Some(OfGrant(BadTimestamp(at)))
    else if !ValidTimestamp(p.expires) then Some(OfGrant(BadTimestamp(p.expires)))
    else if !UpTo(at, p.expires) then Some(Expired(p.expires))
    else if !PairOf(p, a, b) then Some(WrongPair(p.permitId, a, b))
    else if taskClass == "" || p.taskClass != taskClass then Some(NoPreauthorization(p.requester, taskClass))
    else
      match p.basis
      case ByLca(_) =>
        if !ValidChart(org) then Some(OfGrant(ChartOutcome(org).error))
        else if !BasisStands(org, l, p, a, b, at) then Some(NotLca(p.issuedBy, a, b))
        else None
      case ByPreauthorization(id) =>
        if p.issuedBy == p.requester && id !in l.grants then Some(OfGrant(UnknownGrant(id)))
        else if !BasisStands(org, l, p, a, b, at) then Some(OfGrant(ClosedGrant(id)))
        else None
  }

  method AuthorizeSession(
      p: Permit, org: OrgChart, ledger: GrantLedger, a: string, b: string, taskClass: string, at: string)
    returns (r: Result<Unit, PermitError>)
    requires ledger.Valid()
    ensures r.Success? <==>
              Authorizes(p, a, b, at) && taskClass != "" && p.taskClass == taskClass
              && BasisStands(org, ledger.State(), p, a, b, at)
    ensures r.Failure? ==> AdmissionFault(p, org, ledger.State(), a, b, taskClass, at) == Some(r.error)
  {
    hide ValidChart, ChartOutcome, ValidTimestamp, Recorded, PeerAllowed, OnChain, OpenAt, UpTo, Lca;
    if !ValidTimestamp(at) {
      return Failure(OfGrant(BadTimestamp(at)));
    }
    if !ValidTimestamp(p.expires) {
      return Failure(OfGrant(BadTimestamp(p.expires)));
    }
    UpToTotal(at, p.expires);
    if TextBefore(p.expires, at) {
      return Failure(Expired(p.expires));
    }
    if !PairOf(p, a, b) {
      return Failure(WrongPair(p.permitId, a, b));
    }
    if taskClass == "" || p.taskClass != taskClass {
      return Failure(NoPreauthorization(p.requester, taskClass));
    }
    match p.basis {
      case ByLca(supervisor) =>
        var checked := ValidateChart(org);
        if checked.Failure? {
          return Failure(OfGrant(checked.error));
        }
        if p.issuedBy != supervisor || Lca(org, a, b) != Some(supervisor) {
          return Failure(NotLca(p.issuedBy, a, b));
        }
      case ByPreauthorization(id) =>
        var peerGood := false;
        if id in ledger.grants && OnChain(org, p.peer, ledger.grants[id].grantor) {
          var allowed := ledger.AllowsPeer(id, org, p.requester, p.peer);
          peerGood := allowed == Success(true);
        }
        if p.issuedBy != p.requester {
          return Failure(OfGrant(ClosedGrant(id)));
        }
        var open := ledger.IsOpen(id, at);
        if open.Failure? {
          return Failure(OfGrant(open.error));
        }
        var held := ledger.HeldBy(p.requester, at);
        if !open.value || !peerGood || id !in held || !Names(ledger.grants[id], CrossBranch(taskClass)) {
          return Failure(OfGrant(ClosedGrant(id)));
        }
    }
    return Success(Unit);
  }

  // ------------------------------------------------------ how long it lasts

  lemma {:induction false} EarliestBounds(grants: map<string, Grant>, ids: seq<string>, expires: string)
    requires forall x | x in ids :: x in grants
    ensures UpTo(Earliest(grants, ids, expires), expires)
    ensures forall x | x in ids :: UpTo(Earliest(grants, ids, expires), grants[x].validUntil)
  {
    hide UpTo, Earlier;
    UpToTotal(expires, expires);
    if ids != [] {
      var until := grants[ids[0]].validUntil;
      var e := Earlier(expires, until);
      EarliestBounds(grants, ids[1..], e);
      var all := Earliest(grants, ids, expires);
      EarlierIsLowerBound(expires, until);
      UpToTransitive(all, e, expires);
      UpToTransitive(all, e, until);
      assert forall x | x in ids :: x == ids[0] || x in ids[1..];
    }
  }

  /** Open now and not past any end means open later. */
  lemma StaysOpen(l: Ledger, id: string, s: string, t: string)
    requires Recorded(l) && id in l.grants && OpenAt(l, id, s) && UpTo(s, t)
    requires forall x | x in Ancestry(l, id) :: UpTo(t, l.grants[x].validUntil)
    ensures OpenAt(l, id, t)
  {
    hide Recorded, UpTo, Ancestry;
    forall x | x in Ancestry(l, id) ensures OpenItself(l, x, t) {
      assert OpenItself(l, x, s);
      UpToTransitive(l.grants[x].validFrom, s, t);
    }
  }

  lemma EarliestValid(l: Ledger, ids: seq<string>, expires: string)
    requires Shaped(l) && (forall x | x in ids :: x in l.grants) && ValidTimestamp(expires)
    ensures ValidTimestamp(Earliest(l.grants, ids, expires))
  {
    hide ValidTimestamp, Earlier;
    if ids != [] {
      assert CheckShape(l.grants[ids[0]]).Success?;
      EarliestValid(l, ids[1..], Earlier(expires, l.grants[ids[0]].validUntil));
    }
  }

  /**
   A permit issued on a preauthorization grant at `s` is admitted at every valid time from `s`
   to its expiry and at none after it, in either order of the parties, as long as chart and
   ledger stay as they were.
   */
  lemma PermitLastsItsInterval(
      org: OrgChart, l: Ledger, q: CollaborationRequest, s: string, id: string, permitId: string, t: string)
    requires Lawful(l) && Grounds(org, l, q, s, id) && ValidTimestamp(t) && UpTo(s, t)
    ensures var p := Grounded(l, q, id, permitId);
            var admitted := UpTo(t, p.expires);
            && (Authorizes(p, q.requester, q.peer, t) && BasisStands(org, l, p, q.requester, q.peer, t) <==> admitted)
            && (Authorizes(p, q.peer, q.requester, t) && BasisStands(org, l, p, q.peer, q.requester, t) <==> admitted)
  {
    hide ValidChart, ValidTimestamp, Recorded, Narrowing, PeerAllowed, OnChain, OpenAt, UpTo, Ancestry, Earliest;
    var p := Grounded(l, q, id, permitId);
    EarliestValid(l, Ancestry(l, id), q.expires);
    if UpTo(t, p.expires) {
      EarliestBounds(l.grants, Ancestry(l, id), q.expires);
      forall x | x in Ancestry(l, id) ensures UpTo(t, l.grants[x].validUntil) {
        UpToTransitive(t, p.expires, l.grants[x].validUntil);
      }
      StaysOpen(l, id, s, t);
    }
  }

  /** After its grant or an ancestor is revoked, a permit is never admitted again. */
  lemma PermitDiesWithItsGrant(
      org: OrgChart, l: Ledger, p: Permit, gone: string, ops: seq<Op>, a: string, b: string, t: string)
    requires Lawful(l) && p.basis.ByPreauthorization? && p.basis.grantId in l.grants
    requires gone in Ancestry(l, p.basis.grantId) && gone in l.revoked
    ensures !BasisStands(org, Run(l, ops), p, a, b, t)
  {
    hide ValidTimestamp, Recorded, Narrowing, Shaped, PeerAllowed, OnChain, OpenAt, Ancestry, Run;
    ClosedForGood(l, ops, p.basis.grantId, gone, t);
  }

  /** A permit of the lowest common supervisor is good in either order of the parties while the chart stays. */
  lemma LcaPermitLasts(org: OrgChart, l: Ledger, p: Permit, t: string)
    requires Recorded(l) && ValidChart(org) && ValidTimestamp(p.expires) && p.basis.ByLca?
    requires p.issuedBy == p.basis.supervisor && Lca(org, p.requester, p.peer) == Some(p.basis.supervisor)
    requires ValidTimestamp(t) && UpTo(t, p.expires)
    ensures Authorizes(p, p.requester, p.peer, t) && BasisStands(org, l, p, p.requester, p.peer, t)
    ensures Authorizes(p, p.peer, p.requester, t) && BasisStands(org, l, p, p.peer, p.requester, t)
  {
    hide ValidChart, ValidTimestamp, Recorded, Lca, UpTo;
    LcaSymmetric(org, p.requester, p.peer);
  }

  // ------------------------------------------------ when the chart changes

  /** `m` is `agent` or somebody above it, and the chain upwards ends. */
  ghost predicate InBranch(org: OrgChart, m: string, agent: string) {
    exists p, i :: IsChain(org, p) && p[0] == agent && 0 <= i < |p| && p[i] == m
  }

  lemma OnChainIsInBranch(org: OrgChart, agent: string, m: string)
    ensures OnChain(org, agent, m) <==> InBranch(org, m, agent)
  {
    hide CheckedChain;
    CheckedChainExact(org, agent);
    if OnChain(org, agent, m) {
      var p := CheckedChain(org, agent).value;
      var i :| 0 <= i < |p| && p[i] == m;
      assert IsChain(org, p) && p[0] == agent && 0 <= i < |p| && p[i] == m;
    }
  }

  /**
   A permit issued on a preauthorization grant under one chart, presented under any other: it
   is admitted before its expiry exactly when the peer is in the branch of the grantor there,
   and, where the grant or an ancestor is restricted to a peer, the two are siblings there.
   */
  lemma PermitFollowsChart(
      org: OrgChart, now: OrgChart, l: Ledger, q: CollaborationRequest, s: string, id: string, permitId: string, t: string)
    requires Lawful(l) && Grounds(org, l, q, s, id) && ValidTimestamp(t) && UpTo(s, t)
    ensures var p := Grounded(l, q, id, permitId);
            Authorizes(p, q.requester, q.peer, t) && BasisStands(now, l, p, q.requester, q.peer, t)
            <==> UpTo(t, p.expires) && InBranch(now, l.grants[id].grantor, q.peer)
                 && (Restricted(l, id) ==> SharesParent(now, q.requester, q.peer))
  {
    hide ValidChart, ValidTimestamp, Recorded, Narrowing, OnlyTo, Restricted, OnChain, InBranch, SharesParent, OpenAt, UpTo, Ancestry, Earliest;
    PermitLastsItsInterval(org, l, q, s, id, permitId, t);
    OnChainIsInBranch(now, q.peer, l.grants[id].grantor);
  }

  /** Whatever else is true of it, such a permit admits nobody once its peer has left the branch of the grantor. */
  lemma RefusedOutsideBranch(p: Permit, now: OrgChart, l: Ledger, a: string, b: string, taskClass: string, t: string)
    requires Recorded(l) && p.basis.ByPreauthorization? && p.basis.grantId in l.grants
    requires !InBranch(now, l.grants[p.basis.grantId].grantor, p.peer)
    ensures AdmissionFault(p, now, l, a, b, taskClass, t).Some?
  {
    hide Recorded, Standing, OnChain, InBranch, PeerAllowed;
    OnChainIsInBranch(now, p.peer, l.grants[p.basis.grantId].grantor);
  }

  /** A supervisor's permit, under any chart: good exactly while that chart is valid and has the same lowest supervisor. */
  lemma LcaPermitFollowsChart(p: Permit, now: OrgChart, l: Ledger, a: string, b: string, taskClass: string, t: string)
    requires Recorded(l) && p.basis.ByLca? && p.issuedBy == p.basis.supervisor
    ensures AdmissionFault(p, now, l, a, b, taskClass, t).None?
            <==> Authorizes(p, a, b, t) && taskClass != "" && p.taskClass == taskClass
                 && ValidChart(now) && LowestAbove(now, p.issuedBy, a, b)
  {
    hide Recorded, ValidChart, Lca, LowestAbove, Authorizes;
    LcaExact(now, p.issuedBy, a, b);
  }

  // ------------------------------------------------------- what is asked for

  /** A request is between two different named agents, for a class of tasks, under an id of its own and up to a time. */
  lemma RequestExact(q: CollaborationRequest)
    ensures RequestOutcome(q).Success?
            <==> && (exists hex :: |hex| >= 12 && AllHex(hex) && q.requestId == "cr-" + hex)
                 && AgentUrn(q.requester) && AgentUrn(q.peer) && q.requester != q.peer
                 && q.taskClass != "" && ValidTimestamp(q.expires)
  {
    hide AgentUrn, ValidTimestamp;
    var id := q.requestId;
    if "cr-" <= id {
      assert id == "cr-" + id[3..];
    }
    forall hex | id == "cr-" + hex ensures id[3..] == hex {
    }
  }

  /** A permit on preauthorization stands on a grant its requester holds now, with the scope of its very class. */
  lemma StandsOnHeldScope(p: Permit, org: OrgChart, l: Ledger, a: string, b: string, taskClass: string, t: string)
    requires Recorded(l) && p.basis.ByPreauthorization? && AdmissionFault(p, org, l, a, b, taskClass, t).None?
    ensures var id := p.basis.grantId;
            && id in l.grants && l.grants[id].grantee == p.requester == p.issuedBy && OpenAt(l, id, t)
            && Names(l.grants[id], "cross-branch/" + taskClass)
  {
    hide Recorded, OpenAt, OnChain, PeerAllowed;
  }
}
