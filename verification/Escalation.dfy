/** Raising a dispute and referring it upwards (`src/v2/escalation.rs`). */
module Escalations {
  import opened Wrappers
  import opened OrgCharts

  datatype Subject = OfContract(contractId: string) | OfTask(taskId: string) | OfArtifact(artifactId: string)

  datatype Ruling = Split | Reassign(to: string) | Deadline(at: string)

  datatype Stage = Raised | Referred | Resolved | NoAgreement

  datatype EscalationError =
    | SameParty(who: string)
    | NotSameParent(a: string, b: string)
    | NoSupervisor(who: string)
    | ArbiterIsParty(who: string)
    | NotRaised
    | NotReferred
    | Closed
    | NoLca

  /** Who mediates a raise: the shared supervisor, or the one above a parent and its child. */
  function RaiseMediator(org: OrgChart, a: string, b: string): Result<string, EscalationError> {
    if a == b then Failure(SameParty(a))
    else if SharesParent(org, a, b) then Success(org.parentOf[a])
    else if a in org.parentOf && org.parentOf[a] == b then
      if b in org.parentOf then Success(org.parentOf[b]) else Failure(NoSupervisor(b))
    else if b in org.parentOf && org.parentOf[b] == a then
      if a in org.parentOf then Success(org.parentOf[a]) else Failure(NoSupervisor(a))
    else Failure(NotSameParent(a, b))
  }

  /** `m` is the direct supervisor of `agent`. */
  predicate RightAbove(org: OrgChart, m: string, agent: string) {
    agent in org.parentOf && org.parentOf[agent] == m
  }

  /**
   A raise is taken exactly from siblings and from a parent and its child, in either order, and
   the mediator is whoever is right above both; each refusal names what is missing. Only of two
   agents declared right above each other does the order decide.
   */
  lemma RaiseExact(org: OrgChart, a: string, b: string, m: string)
    ensures RaiseMediator(org, a, b) == Success(m)
            <==> && a != b
                 && (|| (RightAbove(org, m, a) && RightAbove(org, m, b))
                     || (RightAbove(org, m, b) && RightAbove(org, b, a))
                     || (RightAbove(org, m, a) && RightAbove(org, a, b) && !RightAbove(org, b, a)))
    ensures RaiseMediator(org, a, b) == Failure(SameParty(m)) <==> a == b == m
    ensures RaiseMediator(org, a, b) == Failure(NoSupervisor(m))
            <==> a != b && m !in org.parentOf && ((m == a && RightAbove(org, a, b)) || (m == b && RightAbove(org, b, a)))
    ensures a != b && RaiseMediator(org, a, b).Failure? && !RaiseMediator(org, a, b).error.NoSupervisor?
            ==> RaiseMediator(org, a, b) == Failure(NotSameParent(a, b))
  {
  }

  /** Where a referral goes. */
  function ReferralTarget(org: OrgChart, a: string, b: string, mediator: Option<string>): Result<string, EscalationError> {
    match Lca(org, a, b)
    case None => Failure(NoLca)
    case Some(lca) =>
      if mediator == Some(lca) && lca in org.parentOf then Success(org.parentOf[lca]) else Success(lca)
  }

  // ------------------------------------------------------------- one dispute

  /** All there is on record about a dispute. */
  datatype Dispute = Dispute(
    escalationId: string, parties: (string, string), subject: Subject, raisedAt: string,
    stage: Stage, mediator: Option<string>, arbiter: Option<string>, ruling: Option<Ruling>)

  type Answer = Result<Unit, EscalationError>

  function RaisedDispute(id: string, a: string, b: string, subject: Subject, at: string, mediator: string): Dispute {
    Dispute(id, (a, b), subject, at, Raised, Some(mediator), None, None)
  }

  datatype Move = DoRefer(org: OrgChart) | DoInvokeArbiter(who: string) | DoResolve(decision: Ruling) | DoConclude

  predicate Over(stage: Stage) {
    stage.Resolved? || stage.NoAgreement?
  }

  /** Why a move is refused, when it is. */
  function Refusal(d: Dispute, move: Move): Option<EscalationError> {
    match move
    case DoRefer(org) =>
      if !d.stage.Raised? then Some(NotRaised)
      else if Lca(org, d.parties.0, d.parties.1).None? then Some(NoLca)
      else None
    case DoInvokeArbiter(who) =>
      if Over(d.stage) then Some(Closed)
      else if who == d.parties.0 || who == d.parties.1 then Some(ArbiterIsParty(who))
      else None
    case DoResolve(_) => if d.stage.Referred? then None else Some(NotReferred)
    case DoConclude => if Over(d.stage) then Some(Closed) else None
  }

  function Moved(d: Dispute, move: Move): Dispute {
    if Refusal(d, move).Some? then d
    else
      match move
      case DoRefer(org) =>
        d.(stage := Referred, mediator := Some(ReferralTarget(org, d.parties.0, d.parties.1, d.mediator).value))
      case DoInvokeArbiter(who) => d.(arbiter := Some(who))
      case DoResolve(decision) => d.(stage := Resolved, ruling := Some(decision))
      case DoConclude => d.(stage := NoAgreement)
  }

  function AnswerTo(d: Dispute, move: Move): Answer {
    match Refusal(d, move)
    case Some(e) => Failure(e)
    case None => Success(Unit)
  }

  /** The record of one dispute, moved through its stages in place. */
  class Escalation {
    const escalationId: string
    const parties: (string, string)
    const subject: Subject
    const raisedAt: string
    var stage: Stage
    var mediator: Option<string>
    var arbiter: Option<string>
    var ruling: Option<Ruling>

    function Record(): Dispute
      reads this
    {
      Dispute(escalationId, parties, subject, raisedAt, stage, mediator, arbiter, ruling)
    }

    constructor (id: string, a: string, b: string, subject: Subject, at: string, mediator: string)
      ensures Record() == RaisedDispute(id, a, b, subject, at, mediator)
    {
      this.escalationId, this.parties, this.subject, this.raisedAt := id, (a, b), subject, at;
      this.stage, this.mediator, this.arbiter, this.ruling := Raised, Some(mediator), None, None;
    }

    method Refer(org: OrgChart) returns (r: Answer)
      modifies this`mediator, this`stage
      ensures r == AnswerTo(old(Record()), DoRefer(org)) && Record() == Moved(old(Record()), DoRefer(org))
    {
      if stage != Raised {
        return Failure(NotRaised);
      }
      var found := Lca(org, parties.0, parties.1);
      if found.None? {
        return Failure(NoLca);
      }
      var lca := found.value;
      if mediator == Some(lca) {
        if lca in org.parentOf {
          lca := org.parentOf[lca];
        }
      }
      mediator := Some(lca);
      stage := Referred;
      r := Success(Unit);
    }

    method InvokeArbiter(who: string) returns (r: Answer)
      modifies this`arbiter
      ensures r == AnswerTo(old(Record()), DoInvokeArbiter(who)) && Record() == Moved(old(Record()), DoInvokeArbiter(who))
    {
      if stage == Resolved || stage == NoAgreement {
        return Failure(Closed);
      }
      if who == parties.0 || who == parties.1 {
        return Failure(ArbiterIsParty(who));
      }
      arbiter := Some(who);
      r := Success(Unit);
    }

    method Resolve(decision: Ruling) returns (r: Answer)
      modifies this`stage, this`ruling
      ensures r == AnswerTo(old(Record()), DoResolve(decision)) && Record() == Moved(old(Record()), DoResolve(decision))
    {
      if stage != Referred {
        return Failure(NotReferred);
      }
      ruling := Some(decision);
      stage := Resolved;
      r := Success(Unit);
    }

    method ConcludeNoAgreement() returns (r: Answer)
      modifies this`stage
      ensures r == AnswerTo(old(Record()), DoConclude) && Record() == Moved(old(Record()), DoConclude)
    {
      if stage == Resolved || stage == NoAgreement {
        return Failure(Closed);
      }
      stage := NoAgreement;
      r := Success(Unit);
    }
  }

  method Raise(org: OrgChart, id: string, a: string, b: string, subject: Subject, at: string)
    returns (r: Result<Escalation, EscalationError>)
    ensures match RaiseMediator(org, a, b)
            case Failure(e) => r == Failure(e)
            case Success(m) => r.Success? && fresh(r.value) && r.value.Record() == RaisedDispute(id, a, b, subject, at, m)
  {
    var mediator :- RaiseMediator(org, a, b);
    var raised := new Escalation(id, a, b, subject, at, mediator);
    r := Success(raised);
  }

  // -------------------------------------------------------------- whole runs

  function Run(d: Dispute, moves: seq<Move>): Dispute {
    if moves == [] then d else Moved(Run(d, moves[..|moves| - 1]), moves[|moves| - 1])
  }

  /** A dispute that was resolved or given up never changes again, and every move is refused. */
  lemma {:induction false} OverForGood(d: Dispute, moves: seq<Move>, move: Move)
    requires Over(d.stage)
    ensures Run(d, moves) == d && AnswerTo(Run(d, moves), move).Failure?
  {
    if moves != [] {
      OverForGood(d, moves[..|moves| - 1], move);
    }
  }

  /** Where the dispute was referred: the move that did it, and what it was referred to. */
  ghost predicate ReferredBy(d: Dispute, moves: seq<Move>, i: nat) {
    i < |moves| && moves[i].DoRefer? && Run(d, moves[..i]).stage.Raised? && Run(d, moves[..i]).mediator == d.mediator
    && ReferralTarget(moves[i].org, d.parties.0, d.parties.1, d.mediator).Success?
    && Run(d, moves).mediator == Some(ReferralTarget(moves[i].org, d.parties.0, d.parties.1, d.mediator).value)
  }

  /** The last of the rulings that were accepted, if any. */
  ghost predicate RuledBy(d: Dispute, moves: seq<Move>, i: nat) {
    i < |moves| && moves[i].DoResolve? && Run(d, moves[..i]).stage.Referred? && Run(d, moves).ruling == Some(moves[i].decision)
  }

  /**
   The ladder. Over every run from a raise: who it is between, what it is about and when it
   was raised never change; there is a ruling exactly when the dispute is resolved, it is the
   one that was given after a referral, and never a second one; the mediator is the first one
   until the one referral and its target after that; and an arbiter is a third party.
   */
  lemma {:induction false} LadderClimbed(d: Dispute, moves: seq<Move>)
    requires d.stage.Raised? && d.ruling.None? && d.arbiter.None?
    ensures var now := Run(d, moves);
            && now.escalationId == d.escalationId && now.parties == d.parties && now.subject == d.subject && now.raisedAt == d.raisedAt
            && (now.ruling.Some? <==> now.stage.Resolved?)
            && (now.stage.Resolved? ==> exists i, j :: i < j && ReferredBy(d, moves, i) && RuledBy(d, moves, j))
            && (now.stage.Referred? ==> exists i :: ReferredBy(d, moves, i))
            && (now.stage.Raised? ==> now.mediator == d.mediator)
            && (now.arbiter.Some? ==> now.arbiter.value != d.parties.0 && now.arbiter.value != d.parties.1)
  {
    hide Lca;
    if moves != [] {
      var n := |moves| - 1;
      var before := moves[..n];
      LadderClimbed(d, before);
      var was, now := Run(d, before), Run(d, moves);
      forall i: nat | i <= n ensures before[..i] == moves[..i] {
      }
      if Refusal(was, moves[n]).None? && moves[n].DoRefer? {
        assert ReferredBy(d, moves, n);
      } else if now.stage.Referred? {
        var i :| ReferredBy(d, before, i);
        assert ReferredBy(d, moves, i);
      } else if now.stage.Resolved? && was.stage.Referred? {
        var i :| ReferredBy(d, before, i);
        assert ReferredBy(d, moves, i) && RuledBy(d, moves, n);
      } else if now.stage.Resolved? {
        var i, j :| i < j && ReferredBy(d, before, i) && RuledBy(d, before, j);
        assert now == was;
        assert ReferredBy(d, moves, i) && RuledBy(d, moves, j);
      }
    }
  }

  // ------------------------------------- what is on record, by the answers

  /** The move at `i` was made and not refused. */
  ghost predicate Made(d: Dispute, moves: seq<Move>, i: int) {
    0 <= i < |moves| && AnswerTo(Run(d, moves[..i]), moves[i]).Success?
  }

  ghost predicate GivenUp(d: Dispute, moves: seq<Move>) {
    exists i :: Made(d, moves, i) && moves[i].DoConclude?
  }

  ghost predicate Decided(d: Dispute, moves: seq<Move>) {
    exists i :: Made(d, moves, i) && moves[i].DoResolve?
  }

  ghost predicate WasReferred(d: Dispute, moves: seq<Move>) {
    exists i :: Made(d, moves, i) && moves[i].DoRefer?
  }

  /** `who` was named by the last invocation that was not refused. */
  ghost predicate LastNamed(d: Dispute, moves: seq<Move>, who: string, i: int) {
    && Made(d, moves, i) && moves[i] == DoInvokeArbiter(who)
    && forall j | i < j && Made(d, moves, j) :: !moves[j].DoInvokeArbiter?
  }

  ghost predicate NobodyNamed(d: Dispute, moves: seq<Move>) {
    forall i | Made(d, moves, i) :: !moves[i].DoInvokeArbiter?
  }

  /** One more move makes nothing else of the moves before it. */
  lemma MadeBefore(d: Dispute, moves: seq<Move>, move: Move)
    ensures forall i | 0 <= i < |moves| :: Made(d, moves + [move], i) <==> Made(d, moves, i)
    ensures Made(d, moves + [move], |moves|) <==> AnswerTo(Run(d, moves), move).Success?
    ensures Run(d, moves + [move]) == Moved(Run(d, moves), move)
  {
    hide Lca;
    assert (moves + [move])[..|moves|] == moves;
    forall i | 0 <= i < |moves| ensures (moves + [move])[..i] == moves[..i] {
    }
  }

  /** The stage is what the moves that were not refused say: given up, ruled on, or referred. */
  ghost predicate StageAgrees(d: Dispute, moves: seq<Move>) {
    var now := Run(d, moves);
    && now.parties == d.parties
    && (now.stage.NoAgreement? <==> GivenUp(d, moves))
    && (now.stage.Resolved? <==> Decided(d, moves))
    && (now.stage.Referred? <==> WasReferred(d, moves) && !Decided(d, moves) && !GivenUp(d, moves))
  }

  /** The arbiter is the one last named without being refused. */
  ghost predicate ArbiterAgrees(d: Dispute, moves: seq<Move>) {
    match Run(d, moves).arbiter
    case None => NobodyNamed(d, moves)
    case Some(who) => exists i :: LastNamed(d, moves, who, i)
  }

  /**
   Over every run from a raise, a conclusion that is not refused ends the dispute without
   agreement, a ruling that is not refused resolves it, nothing else does, and the arbiter on
   record is the last one that was not refused.
   */
  lemma {:induction false} RecordTells(d: Dispute, moves: seq<Move>)
    requires d.stage.Raised? && d.arbiter.None?
    ensures StageAgrees(d, moves) && ArbiterAgrees(d, moves)
  {
    if moves != [] {
      var before, move := moves[..|moves| - 1], moves[|moves| - 1];
      assert moves == before + [move];
      RecordTells(d, before);
      StageTold(d, before, move);
      ArbiterTold(d, before, move);
    }
  }

  lemma StageTold(d: Dispute, before: seq<Move>, move: Move)
    requires StageAgrees(d, before)
    ensures StageAgrees(d, before + [move])
  {
    hide Lca, Run, Made;
    var moves, n := before + [move], |before|;
    MadeBefore(d, before, move);
    MadeInRange(d, moves);
    MadeInRange(d, before);
    assert moves[n] == move && forall i | 0 <= i < n :: moves[i] == before[i];
    assert GivenUp(d, moves) <==> GivenUp(d, before) || (Made(d, moves, n) && move.DoConclude?);
    assert Decided(d, moves) <==> Decided(d, before) || (Made(d, moves, n) && move.DoResolve?);
    assert WasReferred(d, moves) <==> WasReferred(d, before) || (Made(d, moves, n) && move.DoRefer?);
  }

  lemma ArbiterTold(d: Dispute, before: seq<Move>, move: Move)
    requires ArbiterAgrees(d, before)
    ensures ArbiterAgrees(d, before + [move])
  {
    hide Lca, Run, Made;
    var moves, n := before + [move], |before|;
    MadeBefore(d, before, move);
    MadeInRange(d, moves);
    MadeInRange(d, before);
    assert moves[n] == move && forall i | 0 <= i < n :: moves[i] == before[i];
    if Made(d, moves, n) && move.DoInvokeArbiter? {
      assert LastNamed(d, moves, move.who, n);
    } else if Run(d, before).arbiter.Some? {
      var who := Run(d, before).arbiter.value;
      var i :| LastNamed(d, before, who, i);
      assert LastNamed(d, moves, who, i);
    }
  }

  lemma MadeInRange(d: Dispute, moves: seq<Move>)
    ensures forall i | Made(d, moves, i) :: 0 <= i < |moves|
  {
  }

  /**
   Which moves are refused over a run from a raise: a conclusion and an arbiter after a ruling
   or a conclusion, a party as arbiter, a ruling unless the dispute was referred and is open, and
   a referral unless it is the first, of an open dispute whose parties have a common supervisor.
   */
  lemma RefusedExactly(d: Dispute, moves: seq<Move>, move: Move)
    requires d.stage.Raised? && d.arbiter.None?
    ensures var answer := AnswerTo(Run(d, moves), move);
            var open := !Decided(d, moves) && !GivenUp(d, moves);
            match move
            case DoConclude => answer == if open then Success(Unit) else Failure(Closed)
            case DoInvokeArbiter(who) =>
              answer == if !open then Failure(Closed)
                        else if who == d.parties.0 || who == d.parties.1 then Failure(ArbiterIsParty(who))
                        else Success(Unit)
            case DoResolve(_) => answer == if open && WasReferred(d, moves) then Success(Unit) else Failure(NotReferred)
            case DoRefer(org) =>
              answer == if !open || WasReferred(d, moves) then Failure(NotRaised)
                        else if exists m :: LowestAbove(org, m, d.parties.0, d.parties.1) then Success(Unit)
                        else Failure(NoLca)
  {
    hide Lca, LowestAbove, Supervises, Run;
    RecordTells(d, moves);
    if move.DoRefer? {
      CommonOrNot(move.org, d.parties.0, d.parties.1);
    }
  }

  lemma CommonOrNot(org: OrgChart, a: string, b: string)
    ensures Lca(org, a, b).Some? <==> exists m :: LowestAbove(org, m, a, b)
  {
    hide Lca, LowestAbove, Supervises;
    if Lca(org, a, b).Some? {
      LcaExact(org, Lca(org, a, b).value, a, b);
    } else if exists m :: LowestAbove(org, m, a, b) {
      var m :| LowestAbove(org, m, a, b);
      LcaExact(org, m, a, b);
    }
  }

  /**
   After a legal raise, on the same chart, a referral succeeds exactly when the parties'
   chains end, which on an acyclic chart they do; it then moves the mediator up exactly one
   level, unless there is nobody above.
   */
  lemma ReferralClimbsOneLevel(org: OrgChart, a: string, b: string)
    requires RaiseMediator(org, a, b).Success?
    ensures var m := RaiseMediator(org, a, b).value;
            var target := ReferralTarget(org, a, b, Some(m));
            && CheckedChain(org, a).Success? == CheckedChain(org, b).Success? == target.Success?
            && (target.Success? ==> target.value == if m in org.parentOf then org.parentOf[m] else m)
    ensures Acyclic(org) ==> ReferralTarget(org, a, b, Some(RaiseMediator(org, a, b).value)).Success?
  {
    if CheckedChain(org, a).Success? || CheckedChain(org, b).Success? {
      MeetAtMediator(org, a, b);
    }
  }

  /** Raised disputes meet at their mediator. */
  lemma MeetAtMediator(org: OrgChart, a: string, b: string)
    requires RaiseMediator(org, a, b).Success? && (CheckedChain(org, a).Success? || CheckedChain(org, b).Success?)
    ensures CheckedChain(org, a).Success? && CheckedChain(org, b).Success?
    ensures Lca(org, a, b) == Some(RaiseMediator(org, a, b).value)
  {
    hide CheckedChain, Lca;
    if SharesParent(org, a, b) {
      if CheckedChain(org, a).Success? {
        SiblingsMeetAtParent(org, a, b);
      } else {
        SiblingsMeetAtParent(org, b, a);
        LcaSymmetric(org, a, b);
      }
    } else if a in org.parentOf && org.parentOf[a] == b {
      ParentChainEnds(org, a, b);
      ParentAndChildMeetAbove(org, a, b);
    } else {
      ParentChainEnds(org, b, a);
      ParentAndChildMeetAbove(org, b, a);
    }
  }

  /** A child's chain ends when its parent's does. */
  lemma ParentChainEnds(org: OrgChart, child: string, parent: string)
    requires child in org.parentOf && org.parentOf[child] == parent
    ensures CheckedChain(org, parent).Success? ==> CheckedChain(org, child).Success?
  {
    hide CheckedChain;
    CheckedChainExact(org, parent);
    CheckedChainExact(org, child);
    if CheckedChain(org, parent).Success? {
      assert IsChain(org, [child] + CheckedChain(org, parent).value);
    }
  }
}
