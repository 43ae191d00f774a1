/** The bilateral contract, its fields updated in place by every call (`src/v2/contract.rs`). */
module Contracts {
  import opened Wrappers
  import opened Secure
  import opened Canon
  import opened Binding
  import opened Verifications
  import opened ContractSteps

  class Contract {
    const sha256: string -> string
    const contractId: string
    const participants: (string, string)
    const limits: Limits
    var state: State
    var rounds: u64
    var amendments: u64
    var reworks: u64
    var agreedBy: set<string>
    var agreedTermsDigest: Option<string>
    var lastCounterBy: Option<string>
    var amendmentParticipants: set<string>
    var revisions: seq<Revision>
    var pendingSubmission: Option<Submission>
    var pendingSubmitter: Option<string>
    var reworkScope: Option<string>

    function Snapshot(): Fields
      reads this
    {
      Fields(contractId, participants, limits, state, rounds, amendments, reworks, agreedBy, agreedTermsDigest,
             lastCounterBy, amendmentParticipants, revisions, pendingSubmission, pendingSubmitter, reworkScope)
    }

    constructor (sha256: string -> string, contractId: string, participants: (string, string), limits: Limits)
      ensures Snapshot() == Formed(contractId, participants, limits) && this.sha256 == sha256
    {
      this.sha256, this.contractId, this.participants, this.limits := sha256, contractId, participants, limits;
      state, rounds, amendments, reworks := Proposed, 0, 0, 0;
      agreedBy, agreedTermsDigest, lastCounterBy, amendmentParticipants := {}, None, None, {};
      revisions, pendingSubmission, pendingSubmitter, reworkScope := [], None, None, None;
    }

    function Authorize(who: string): Outcome
    {
      if who == participants.0 || who == participants.1 then DONE else Failure(NotAParty(who))
    }

    method Counter(who: string) returns (r: Outcome)
      modifies this
      ensures (Snapshot(), r) == ContractSteps.Counter(old(Snapshot()), who)
    {
      var _ :- Authorize(who);
      if state !in {Proposed, Countered, Amending} {
        return Failure(IllegalTransition("counter", state));
      }
      var amending := state == Amending;
      if lastCounterBy == Some(who) {
        return Failure(RepeatedCounter(who));
      }
      lastCounterBy := Some(who);
      if amending {
        amendmentParticipants := amendmentParticipants + {who};
      }
      rounds := Next(rounds);
      agreedBy := {};
      agreedTermsDigest := None;
      if rounds >= limits.maxRounds {
        state := if amending && |amendmentParticipants| < 2 then Executing else NoAgreement;
        return Failure(RoundsExhausted(rounds, limits.maxRounds));
      }
      state := if amending then Amending else Countered;
      r := DONE;
    }

    function Checked(terms: Json): Result<string, ContractError>
      reads this
    {
      CheckTerms(sha256, Snapshot(), terms)
    }

    method Agree(who: string, terms: Json) returns (r: Outcome)
      modifies this
      ensures (Snapshot(), r) == ContractSteps.Agree(sha256, old(Snapshot()), who, terms)
    {
      hide CheckTerms;
      var _ :- Authorize(who);
      if state !in {Proposed, Countered, Agreed} {
        return Failure(IllegalTransition("agree", state));
      }
      var digest :- Checked(terms);
      if agreedTermsDigest.None? {
        agreedBy := {};
      }
      agreedTermsDigest := Some(digest);
      agreedBy := agreedBy + {who};
      if |agreedBy| == 2 {
        state := Agreed;
      } else {
        state := Proposed;
      }
      r := DONE;
    }

    method Freeze(terms: Json) returns (r: Frozen)
      modifies this
      ensures (Snapshot(), r) == ContractSteps.Freeze(sha256, old(Snapshot()), terms)
    {
      hide DigestOf, RevisionDigest;
      if state != Agreed {
        return Failure(IllegalTransition("freeze", state));
      }
      var missing := Missing(Snapshot());
      if missing != "" {
        return Failure(NotBothAgreed(missing));
      }
      var digest :- Checked(terms);
      if agreedTermsDigest != Some(digest) {
        return Failure(TermsMismatch);
      }
      var revision :- Recorded(sha256, Snapshot(), terms);
      revisions := revisions + [revision];
      agreedBy := {};
      agreedTermsDigest := None;
      state := Executing;
      r := Success(Some(revision.digest));
    }

    method Withdraw(who: string) returns (r: Outcome)
      modifies this
      ensures (Snapshot(), r) == ContractSteps.Withdraw(old(Snapshot()), who)
    {
      var _ :- Authorize(who);
      if state !in {Proposed, Countered, Agreed} {
        return Failure(IllegalTransition("withdraw", state));
      }
      state := Withdrawn;
      r := DONE;
    }

    method ExpireNegotiation() returns (r: Outcome)
      modifies this
      ensures (Snapshot(), r) == ContractSteps.ExpireNegotiation(old(Snapshot()))
    {
      if state !in {Proposed, Countered, Agreed, Amending} {
        return Failure(IllegalTransition("expire negotiation", state));
      }
      state := if state == Amending && |amendmentParticipants| < 2 then Executing else NoAgreement;
      r := DONE;
    }

    method Submit(who: string, submission: Submission) returns (r: Outcome)
      modifies this
      ensures (Snapshot(), r) == ContractSteps.Submit(old(Snapshot()), who, submission)
    {
      var _ :- Authorize(who);
      if state != Executing {
        return Failure(IllegalTransition("submit", state));
      }
      var expected := FrozenDigest(Snapshot());
      if submission.againstRevision != expected {
        return Failure(StaleRevision(submission.againstRevision, expected));
      }
      pendingSubmission := Some(submission);
      pendingSubmitter := Some(who);
      state := Verifying;
      r := DONE;
    }

    method Decide(verdict: Verdict) returns (r: Outcome)
      modifies this
      ensures (Snapshot(), r) == ContractSteps.Decide(old(Snapshot()), verdict)
    {
      if state != Verifying {
        return Failure(IllegalTransition("apply a verdict", state));
      }
      pendingSubmission := None;
      match verdict {
        case Accept =>
          reworkScope := None;
          state := Settled;
        case Rework(scope) =>
          if reworks >= limits.maxRework {
            reworkScope := Some(scope);
            state := Rejected;
          } else {
            reworks := Next(reworks);
            reworkScope := Some(scope);
            state := Executing;
          }
        case Reject =>
          reworkScope := None;
          state := Rejected;
      }
      pendingSubmitter := None;
      r := DONE;
    }

    method ApplyVerification(record: Verification) returns (r: Outcome)
      modifies this
      ensures (Snapshot(), r) == ContractSteps.ApplyVerification(old(Snapshot()), record)
    {
      hide ContractSteps.Decide;
      var valid := Validate(record);
      if valid.Failure? {
        return Failure(InvalidRecord(valid.error));
      }
      var _ :- Authorize(record.verifier);
      if pendingSubmission.None? {
        return Failure(NothingPending);
      }
      var pending := pendingSubmission.value;
      if pendingSubmitter.None? || pendingSubmitter == Some(record.verifier) || record.contractId != contractId
         || record.againstRevision != pending.againstRevision || Elements(record.artifacts) != Elements(pending.artifacts) {
        return Failure(WrongRecord);
      }
      r := Decide(record.verdict);
    }

    method ProposeAmendment(who: string) returns (r: Outcome)
      modifies this
      ensures (Snapshot(), r) == ContractSteps.ProposeAmendment(old(Snapshot()), who)
    {
      var _ :- Authorize(who);
      if state != Executing {
        return Failure(IllegalTransition("propose an amendment", state));
      }
      if amendments >= limits.maxAmendments {
        return Failure(AmendmentsExhausted(amendments, limits.maxAmendments));
      }
      state := Amending;
      agreedBy := {};
      agreedTermsDigest := None;
      rounds := 0;
      lastCounterBy := None;
      amendmentParticipants := {};
      amendmentParticipants := amendmentParticipants + {who};
      assert amendmentParticipants == {who};
      r := DONE;
    }

    method DecideAmendment(who: string, accept: bool, terms: Option<Json>) returns (r: Frozen)
      modifies this
      ensures (Snapshot(), r) == ContractSteps.DecideAmendment(sha256, old(Snapshot()), who, accept, terms)
    {
      hide CheckTerms, RevisionDigest;
      var _ :- Authorize(who);
      if state != Amending {
        return Failure(IllegalTransition("decide an amendment", state));
      }
      amendmentParticipants := amendmentParticipants + {who};
      if !accept {
        state := Executing;
        agreedBy := {};
        agreedTermsDigest := None;
        return Success(None);
      }
      if terms.None? {
        return Failure(IllegalTransition("accept an amendment without terms", state));
      }
      var digest :- Checked(terms.value);
      if agreedTermsDigest.None? {
        agreedBy := {};
      }
      agreedTermsDigest := Some(digest);
      agreedBy := agreedBy + {who};
      if |agreedBy| < 2 {
        return Success(None);
      }
      amendments := Next(amendments);
      var revision :- Recorded(sha256, Snapshot(), terms.value);
      revisions := revisions + [revision];
      agreedBy := {};
      agreedTermsDigest := None;
      state := Executing;
      r := Success(Some(revision.digest));
    }
  }
}
