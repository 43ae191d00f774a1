/**
 What each call on a bilateral contract does to its fields (`src/v2/contract.rs`). The class
 in `Contracts` works in place and is proved to do exactly this; `ContractRuns` proves what
 holds of every run of calls.
 */
module ContractSteps {
  import opened Wrappers
  import opened Secure
  import opened Canon
  import opened Binding
  import opened Verifications

  datatype Relationship = Collaboration | Delegation

  datatype Work = Work(taskId: string, summary: string, owner: string)

  datatype Limits = Limits(maxRounds: u64, maxAmendments: u64, maxRework: u64)

  datatype State =
    | Proposed | Countered | Agreed
    | Executing | Amending | Verifying
    | Settled | Rejected | Withdrawn | NoAgreement

  datatype Revision = Revision(number: nat, content: Json, digest: string)

  datatype Submission = Submission(againstRevision: string, artifacts: seq<string>, evidence: seq<string>, claim: string)

  datatype ContractError =
    | NotAParty(who: string)
    | IllegalTransition(action: string, state: State)
    | RoundsExhausted(rounds: u64, max: u64)
    | AmendmentsExhausted(amendments: u64, max: u64)
    | StaleRevision(found: string, expected: string)
    | NotBothAgreed(missing: string)
    | NotCanonical(reason: CanonError)
    | TermsMismatch
    | RepeatedCounter(who: string)
    | InvalidRecord(fault: VerificationError)
    | NothingPending
    | WrongRecord

  /** All fields of a contract as one value. */
  datatype Fields = Fields(
    contractId: string, participants: (string, string), limits: Limits,
    state: State, rounds: u64, amendments: u64, reworks: u64,
    agreedBy: set<string>, agreedTermsDigest: Option<string>, lastCounterBy: Option<string>,
    amendmentParticipants: set<string>, revisions: seq<Revision>,
    pendingSubmission: Option<Submission>, pendingSubmitter: Option<string>, reworkScope: Option<string>)

  function Formed(contractId: string, participants: (string, string), limits: Limits): Fields {
    Fields(contractId, participants, limits, Proposed, 0, 0, 0, {}, None, None, {}, [], None, None, None)
  }

  type Outcome = Result<Unit, ContractError>
  type Frozen = Result<Option<string>, ContractError>

  const DONE: Outcome := Success(Unit)

  function Next(n: u64): u64 {
    if n == U64_MAX then n else n + 1
  }

  function Party(c: Fields, who: string): Outcome {
    if who == c.participants.0 || who == c.participants.1 then DONE else Failure(NotAParty(who))
  }

  predicate Open(s: State) {
    s.Proposed? || s.Countered? || s.Agreed?
  }

  predicate Terminal(s: State) {
    s.Settled? || s.Rejected? || s.Withdrawn? || s.NoAgreement?
  }

  function ContentDigest(sha256: string -> string, terms: Json): Result<string, ContractError> {
    match DigestOf(sha256, terms)
    case Success(d) => Success(d)
    case Failure(e) => Failure(NotCanonical(e))
  }

  function CheckTerms(sha256: string -> string, c: Fields, terms: Json): Result<string, ContractError> {
    var digest :- ContentDigest(sha256, terms);
    if c.agreedTermsDigest.Some? && c.agreedTermsDigest.value != digest then Failure(TermsMismatch) else Success(digest)
  }

  /** Where a negotiation that ran out of rounds or time ends up. */
  function Abandoned(c: Fields, participants: set<string>): State {
    if c.state.Amending? && |participants| < 2 then Executing else NoAgreement
  }

  function Recorded(sha256: string -> string, c: Fields, terms: Json): Result<Revision, ContractError> {
    var number := |c.revisions| + 1;
    match RevisionDigest(sha256, c.contractId, number, terms)
    case Success(d) => Success(Revision(number, terms, d))
    case Failure(e) => Failure(NotCanonical(e))
  }

  // -------------------------------------------------------------- the calls

  function Counter(c: Fields, who: string): (Fields, Outcome) {
    if Party(c, who).Failure? then (c, Party(c, who))
    else if !(c.state.Proposed? || c.state.Countered? || c.state.Amending?) then (c, Failure(IllegalTransition("counter", c.state)))
    else if c.lastCounterBy == Some(who) then (c, Failure(RepeatedCounter(who)))
    else
      var joined := if c.state.Amending? then c.amendmentParticipants + {who} else c.amendmentParticipants;
      var c' := c.(lastCounterBy := Some(who), amendmentParticipants := joined, rounds := Next(c.rounds),
                   agreedBy := {}, agreedTermsDigest := None);
      if c'.rounds >= c.limits.maxRounds
      then (c'.(state := Abandoned(c, joined)), Failure(RoundsExhausted(c'.rounds, c.limits.maxRounds)))
      else (c'.(state := if c.state.Amending? then Amending else Countered), DONE)
  }

  function Agree(sha256: string -> string, c: Fields, who: string, terms: Json): (Fields, Outcome) {
    if Party(c, who).Failure? then (c, Party(c, who))
    else if !Open(c.state) then (c, Failure(IllegalTransition("agree", c.state)))
    else
      match CheckTerms(sha256, c, terms)
      case Failure(e) => (c, Failure(e))
      case Success(digest) =>
        var votes := (if c.agreedTermsDigest.None? then {} else c.agreedBy) + {who};
        (c.(agreedTermsDigest := Some(digest), agreedBy := votes, state := if |votes| == 2 then Agreed else Proposed), DONE)
  }

  function Missing(c: Fields): string {
    if c.participants.0 !in c.agreedBy then c.participants.0
    else if c.participants.1 !in c.agreedBy then c.participants.1
    else ""
  }

  function Freeze(sha256: string -> string, c: Fields, terms: Json): (Fields, Frozen) {
    if !c.state.Agreed? then (c, Failure(IllegalTransition("freeze", c.state)))
    else if Missing(c) != "" then (c, Failure(NotBothAgreed(Missing(c))))
    else
      match CheckTerms(sha256, c, terms)
      case Failure(e) => (c, Failure(e))
      case Success(digest) =>
        if c.agreedTermsDigest != Some(digest) then (c, Failure(TermsMismatch))
        else
          match Recorded(sha256, c, terms)
          case Failure(e) => (c, Failure(e))
          case Success(r) =>
            (c.(revisions := c.revisions + [r], agreedBy := {}, agreedTermsDigest := None, state := Executing),
             Success(Some(r.digest)))
  }

  function Withdraw(c: Fields, who: string): (Fields, Outcome) {
    if Party(c, who).Failure? then (c, Party(c, who))
    else if !Open(c.state) then (c, Failure(IllegalTransition("withdraw", c.state)))
    else (c.(state := Withdrawn), DONE)
  }

  function ExpireNegotiation(c: Fields): (Fields, Outcome) {
    if !(Open(c.state) || c.state.Amending?) then (c, Failure(IllegalTransition("expire negotiation", c.state)))
    else (c.(state := Abandoned(c, c.amendmentParticipants)), DONE)
  }

  function FrozenDigest(c: Fields): string {
    if c.revisions == [] then "" else c.revisions[|c.revisions| - 1].digest
  }

  function Submit(c: Fields, who: string, submission: Submission): (Fields, Outcome) {
    if Party(c, who).Failure? then (c, Party(c, who))
    else if !c.state.Executing? then (c, Failure(IllegalTransition("submit", c.state)))
    else if submission.againstRevision != FrozenDigest(c) then
      (c, Failure(StaleRevision(submission.againstRevision, FrozenDigest(c))))
    else (c.(pendingSubmission := Some(submission), pendingSubmitter := Some(who), state := Verifying), DONE)
  }

  function Decide(c: Fields, verdict: Verdict): (Fields, Outcome) {
    if !c.state.Verifying? then (c, Failure(IllegalTransition("apply a verdict", c.state)))
    else
      var c' := c.(pendingSubmission := None, pendingSubmitter := None);
      match verdict
      case Accept => (c'.(reworkScope := None, state := Settled), DONE)
      case Reject => (c'.(reworkScope := None, state := Rejected), DONE)
      case Rework(scope) =>
        if c.reworks >= c.limits.maxRework then (c'.(reworkScope := Some(scope), state := Rejected), DONE)
        else (c'.(reworkScope := Some(scope), reworks := Next(c.reworks), state := Executing), DONE)
  }

  function Elements(s: seq<string>): set<string> {
    set x | x in s
  }

  /** Whether a record answers exactly what is pending, from the other side. */
  predicate Answers(c: Fields, record: Verification, pending: Submission) {
    c.pendingSubmitter.Some? && c.pendingSubmitter.value != record.verifier
    && record.contractId == c.contractId && record.againstRevision == pending.againstRevision
    && Elements(record.artifacts) == Elements(pending.artifacts)
  }

  function ApplyVerification(c: Fields, record: Verification): (Fields, Outcome) {
    if Validate(record).Failure? then (c, Failure(InvalidRecord(Validate(record).error)))
    else if Party(c, record.verifier).Failure? then (c, Party(c, record.verifier))
    else if c.pendingSubmission.None? then (c, Failure(NothingPending))
    else if !Answers(c, record, c.pendingSubmission.value) then (c, Failure(WrongRecord))
    else Decide(c, record.verdict)
  }

  function ProposeAmendment(c: Fields, who: string): (Fields, Outcome) {
    if Party(c, who).Failure? then (c, Party(c, who))
    else if !c.state.Executing? then (c, Failure(IllegalTransition("propose an amendment", c.state)))
    else if c.amendments >= c.limits.maxAmendments then
      (c, Failure(AmendmentsExhausted(c.amendments, c.limits.maxAmendments)))
    else
      (c.(state := Amending, agreedBy := {}, agreedTermsDigest := None, rounds := 0, lastCounterBy := None,
          amendmentParticipants := {who}), DONE)
  }

  /** The participant is on record before anything about the decision can fail. */
  function DecideAmendment(sha256: string -> string, c: Fields, who: string, accept: bool, terms: Option<Json>): (Fields, Frozen) {
    if Party(c, who).Failure? then (c, Failure(Party(c, who).error))
    else if !c.state.Amending? then (c, Failure(IllegalTransition("decide an amendment", c.state)))
    else
      var c' := c.(amendmentParticipants := c.amendmentParticipants + {who});
      if !accept then (c'.(state := Executing, agreedBy := {}, agreedTermsDigest := None), Success(None))
      else if terms.None? then (c', Failure(IllegalTransition("accept an amendment without terms", c.state)))
      else
        match CheckTerms(sha256, c', terms.value)
        case Failure(e) => (c', Failure(e))
        case Success(digest) =>
          var votes := (if c.agreedTermsDigest.None? then {} else c.agreedBy) + {who};
          var c'' := c'.(agreedTermsDigest := Some(digest), agreedBy := votes);
          if |votes| < 2 then (c'', Success(None))
          else
            match Recorded(sha256, c'', terms.value)
            case Failure(e) => (c''.(amendments := Next(c.amendments)), Failure(e))
            case Success(r) =>
              (c''.(amendments := Next(c.amendments), revisions := c.revisions + [r],
                    agreedBy := {}, agreedTermsDigest := None, state := Executing),
               Success(Some(r.digest)))
  }
}
