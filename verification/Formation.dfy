/** Forming a contract, and the authority a delegation needs (`Contract::propose` in `src/v2/contract.rs`). */
module Formation {
  import opened Wrappers
  import opened Verifications
  import opened Timestamps
  import opened OrgCharts
  import opened Grants
  import opened ContractSteps
  import opened Contracts

  datatype SessionState = Opening | Active | ClosedDown | Abandoned

  datatype FormationError =
    | InactiveSession(state: SessionState)
    | BadLimits
    | DelegationNeedsEscalationPath
    | DelegationNeedsGrantId
    | OwnerNotAParty(who: string)
    | MissingDelegationContext
    | BadEscalationUrn(found: string)
    | GrantNotOpen(grantId: string, at: string)
    | GrantPartyMismatch(grantId: string)
    | CycleInChain(at: string)
    | BadEscalationPath
    | Refused(error: GrantError)

  function Reversed(s: seq<string>): (r: seq<string>)
    ensures |r| == |s| && forall i | 0 <= i < |s| :: r[i] == s[|s| - 1 - i]
  {
    if s == [] then [] else Reversed(s[1..]) + [s[0]]
  }

  /** The participant that does not do the work. */
  function Delegator(participants: (string, string), performer: string): string {
    if participants.0 != performer then participants.0 else participants.1
  }

  /** A grant open now from the delegator to the performer, with the delegator's chain declared from the root down. */
  ghost predicate Authorized(
    org: OrgChart, l: Ledger, at: string, participants: (string, string), performer: string, grantId: string, path: seq<string>)
    requires Grants.Recorded(l)
  {
    && grantId in l.grants && ValidTimestamp(at) && OpenAt(l, grantId, at)
    && l.grants[grantId].grantee == performer && l.grants[grantId].grantor == Delegator(participants, performer)
    && (forall i | 0 <= i < |path| :: AgentUrn(path[i]))
    && CheckedChain(org, l.grants[grantId].grantor).Success?
    && path == Reversed(CheckedChain(org, l.grants[grantId].grantor).value)
  }

  /** The first entry of a declared path that is no agent's name. */
  function FirstBadName(path: seq<string>): (r: Option<string>)
    ensures r.None? <==> forall i | 0 <= i < |path| :: AgentUrn(path[i])
  {
    if path == [] then None else if !AgentUrn(path[0]) then Some(path[0]) else FirstBadName(path[1..])
  }

  /** What is wrong with the authority for a delegation, in the order it is looked at. */
  ghost function AuthorityFault(
    org: OrgChart, l: Ledger, at: string, participants: (string, string), performer: string, grantId: string, path: seq<string>)
    : (r: Option<FormationError>)
    requires Grants.Recorded(l)
    ensures r.None? <==> Authorized(org, l, at, participants, performer, grantId, path)
  {
    if FirstBadName(path).Some? then Some(BadEscalationUrn(FirstBadName(path).value))
    else if grantId !in l.grants then Some(Refused(UnknownGrant(grantId)))
    else if !ValidTimestamp(at) then Some(Refused(BadTimestamp(at)))
    else if !OpenAt(l, grantId, at) then Some(GrantNotOpen(grantId, at))
    else if l.grants[grantId].grantee != performer || l.grants[grantId].grantor != Delegator(participants, performer) then
      Some(GrantPartyMismatch(grantId))
    else
      match CheckedChain(org, l.grants[grantId].grantor)
      case Failure(e) => Some(CycleInChain(e.at))
      case Success(chain) => if path != Reversed(chain) then Some(BadEscalationPath) else None
  }

  /**
   A contract is formed exactly when the session is active, the limits allow a round and an
   amendment, the owner takes part and, for a delegation, the authority is there.
   */
  method Propose(
      sha256: string -> string, session: SessionState, participants: (string, string), contractId: string,
      task: Work, relationship: Relationship, grantId: Option<string>,
      org: Option<OrgChart>, ledger: GrantLedger?, at: Option<string>, path: seq<string>, limits: Limits)
    returns (r: Result<Contract, FormationError>)
    requires ledger != null ==> ledger.Valid()
    requires participants.0 != participants.1
    ensures r.Success? <==>
              && session.Active? && limits.maxRounds >= 1 && limits.maxAmendments >= 1
              && (task.owner == participants.0 || task.owner == participants.1)
              && (relationship.Delegation? ==>
                    path != [] && grantId.Some? && org.Some? && ledger != null && at.Some?
                    && Authorized(org.value, ledger.State(), at.value, participants, task.owner, grantId.value, path))
    ensures r.Success? ==> fresh(r.value) && r.value.Snapshot() == Formed(contractId, participants, limits)
    ensures r.Failure? ==>
              r.error == if !session.Active? then InactiveSession(session)
                         else if limits.maxRounds < 1 || limits.maxAmendments < 1 then BadLimits
                         else if relationship.Delegation? && path == [] then DelegationNeedsEscalationPath
                         else if relationship.Delegation? && grantId.None? then DelegationNeedsGrantId
                         else if task.owner != participants.0 && task.owner != participants.1 then OwnerNotAParty(task.owner)
                         else if org.None? || ledger == null || at.None? then MissingDelegationContext
                         else AuthorityFault(org.value, ledger.State(), at.value, participants, task.owner, grantId.value, path).value
  {
    hide Grants.Recorded, OpenAt, ValidTimestamp, CheckedChain, Reversed, AgentUrn;
    if session != Active {
      return Failure(InactiveSession(session));
    }
    if limits.maxRounds < 1 || limits.maxAmendments < 1 {
      return Failure(BadLimits);
    }
    if relationship.Delegation? && path == [] {
      return Failure(DelegationNeedsEscalationPath);
    }
    if relationship.Delegation? && grantId.None? {
      return Failure(DelegationNeedsGrantId);
    }
    if task.owner != participants.0 && task.owner != participants.1 {
      return Failure(OwnerNotAParty(task.owner));
    }
    if relationship.Delegation? {
      if org.None? || ledger == null || at.None? {
        return Failure(MissingDelegationContext);
      }
      var checked := CheckAuthority(org.value, ledger, at.value, participants, task.owner, grantId.value, path);
      if checked.Failure? {
        return Failure(checked.error);
      }
    }
    var formed := new Contract(sha256, contractId, participants, limits);
    r := Success(formed);
  }

  method CheckAuthority(
      org: OrgChart, ledger: GrantLedger, at: string, participants: (string, string), performer: string,
      grantId: string, path: seq<string>) returns (r: Result<Unit, FormationError>)
    requires ledger.Valid()
    ensures r == match AuthorityFault(org, ledger.State(), at, participants, performer, grantId, path)
                 case None => Success(Unit)
                 case Some(e) => Failure(e)
  {
    hide Grants.Recorded, OpenAt, ValidTimestamp, CheckedChain, Reversed, AgentUrn;
    for i := 0 to |path|
      invariant FirstBadName(path) == FirstBadName(path[i..])
    {
      assert path[i..][0] == path[i] && path[i..][1..] == path[i + 1..];
      if !AgentUrn(path[i]) {
        return Failure(BadEscalationUrn(path[i]));
      }
    }
    if grantId !in ledger.grants {
      return Failure(Refused(UnknownGrant(grantId)));
    }
    var grant := ledger.grants[grantId];
    var open := ledger.IsOpen(grantId, at);
    if open.Failure? {
      return Failure(Refused(open.error));
    }
    if !open.value {
      return Failure(GrantNotOpen(grantId, at));
    }
    if grant.grantee != performer || grant.grantor != Delegator(participants, performer) {
      return Failure(GrantPartyMismatch(grantId));
    }
    var chain := WalkChain(org, grant.grantor);
    if chain.Failure? {
      return Failure(CycleInChain(chain.error.at));
    }
    if path != Reversed(chain.value) {
      return Failure(BadEscalationPath);
    }
    return Success(Unit);
  }

  /** A formed delegation is held by its performer, and its path runs from a root down to the delegator. */
  lemma DelegationIsGrounded(
      org: OrgChart, l: Ledger, at: string, participants: (string, string), performer: string, grantId: string, path: seq<string>)
    requires Grants.Recorded(l) && Authorized(org, l, at, participants, performer, grantId, path)
    ensures Holds(l, grantId, performer, at)
    ensures participants.0 != participants.1 && (performer == participants.0 || performer == participants.1)
            ==> path != [] && {performer, path[|path| - 1]} == {participants.0, participants.1} && performer != path[|path| - 1]
    ensures path != [] && path[|path| - 1] == Delegator(participants, performer) && path[0] !in org.parentOf
    ensures forall i | 0 < i < |path| :: path[i] in org.parentOf && org.parentOf[path[i]] == path[i - 1]
  {
    hide OpenAt, Grants.Recorded, CheckedChain;
    var g := l.grants[grantId].grantor;
    CheckedChainExact(org, g);
    var chain := CheckedChain(org, g).value;
    forall i | 0 < i < |path| ensures path[i] in org.parentOf && org.parentOf[path[i]] == path[i - 1] {
      var k := |chain| - 1 - i;
      assert chain[k] == path[i] && chain[k + 1] == path[i - 1];
    }
  }
}
