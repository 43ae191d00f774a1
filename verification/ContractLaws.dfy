/**
 What each call on a contract answers and brings about (`src/v2/contract.rs`), said of the run
 that led to it: how often was countered, who spoke last, who took part, how often was sent
 back for rework.
 */
module ContractLaws {
  import opened Wrappers
  import opened Canon
  import opened Binding
  import opened Verifications
  import opened ContractSteps
  import opened ContractRuns

  // ------------------------------------------------------ reading the run

  /** The call at the end of the run changed the contract. */
  ghost predicate Took(sha256: string -> string, c: Fields, calls: seq<Call>)
    requires calls != []
  {
    var before := Run(sha256, c, calls[..|calls| - 1]);
    Step(sha256, before, calls[|calls| - 1]).0 != before
  }

  /** How many counters there were since formation or since the last amendment was opened. */
  ghost function Counters(sha256: string -> string, c: Fields, calls: seq<Call>): nat {
    if calls == [] then 0
    else
      var n := |calls| - 1;
      var so := Counters(sha256, c, calls[..n]);
      if !Took(sha256, c, calls) then so
      else if calls[n].DoCounter? then so + 1
      else if calls[n].DoProposeAmendment? then 0
      else so
  }

  /** Who made the last of them. */
  ghost function LastToCounter(sha256: string -> string, c: Fields, calls: seq<Call>): Option<string> {
    if calls == [] then None
    else
      var n := |calls| - 1;
      var so := LastToCounter(sha256, c, calls[..n]);
      if !Took(sha256, c, calls) then so
      else if calls[n].DoCounter? then Some(calls[n].who)
      else if calls[n].DoProposeAmendment? then None
      else so
  }

  /** Who opened the last amendment, countered in it, or said a word on it. */
  ghost function TookPart(sha256: string -> string, c: Fields, calls: seq<Call>): set<string> {
    if calls == [] then {}
    else
      var n := |calls| - 1;
      var before, so := Run(sha256, c, calls[..n]), TookPart(sha256, c, calls[..n]);
      if !Took(sha256, c, calls) then so
      else if calls[n].DoProposeAmendment? then {calls[n].who}
      else if before.state.Amending? && (calls[n].DoCounter? || calls[n].DoDecideAmendment?) then so + {calls[n].who}
      else so
  }

  /** The verdict a call gives, bare or on a record. */
  function VerdictOf(call: Call): Option<Verdict> {
    match call
    case DoDecide(verdict) => Some(verdict)
    case DoApplyVerification(record) => Some(record.verdict)
    case _ => None
  }

  /** How often the work was sent back. */
  ghost function SentBack(sha256: string -> string, c: Fields, calls: seq<Call>): nat {
    if calls == [] then 0
    else
      var n := |calls| - 1;
      SentBack(sha256, c, calls[..n])
      + if Took(sha256, c, calls) && VerdictOf(calls[n]).Some? && VerdictOf(calls[n]).value.Rework? then 1 else 0
  }

  // ------------------------------------------- the fields say what was read

  /** How a call moves the count of counters, who made the last one, and who takes part. */
  ghost predicate Counts(c: Fields, c': Fields, call: Call) {
    && c'.rounds == (if c' == c then c.rounds
                     else if call.DoCounter? then c.rounds + 1
                     else if call.DoProposeAmendment? then 0 else c.rounds)
    && c'.lastCounterBy == (if c' == c then c.lastCounterBy
                            else if call.DoCounter? then Some(call.who)
                            else if call.DoProposeAmendment? then None else c.lastCounterBy)
    && c'.amendmentParticipants
       == (if c' == c then c.amendmentParticipants
           else if call.DoProposeAmendment? then {call.who}
           else if c.state.Amending? && (call.DoCounter? || call.DoDecideAmendment?) then c.amendmentParticipants + {call.who}
           else c.amendmentParticipants)
  }

  lemma CounterCounts(sha256: string -> string, c: Fields, who: string)
    requires Sound(sha256, c)
    ensures Counts(c, Counter(c, who).0, DoCounter(who))
  {
    hide HistoryOk, SubmissionOk;
  }

  lemma DecideAmendmentCounts(sha256: string -> string, c: Fields, who: string, accept: bool, amended: Option<Json>)
    ensures Counts(c, DecideAmendment(sha256, c, who, accept, amended).0, DoDecideAmendment(who, accept, amended))
  {
    hide CheckTerms, Recorded;
  }

  lemma OtherCounts(sha256: string -> string, c: Fields, call: Call)
    requires !call.DoCounter? && !call.DoDecideAmendment?
    ensures Counts(c, Step(sha256, c, call).0, call)
  {
    hide CheckTerms, Recorded, Validate, Answers;
  }

  lemma StepCounts(sha256: string -> string, c: Fields, call: Call)
    requires Sound(sha256, c)
    ensures Counts(c, Step(sha256, c, call).0, call)
  {
    hide Counts, Sound;
    match call
    case DoCounter(who) => CounterCounts(sha256, c, who);
    case DoDecideAmendment(who, accept, amended) => DecideAmendmentCounts(sha256, c, who, accept, amended);
    case _ => OtherCounts(sha256, c, call);
  }

  lemma StepReworks(sha256: string -> string, c: Fields, call: Call)
    requires Sound(sha256, c)
    ensures var c' := Step(sha256, c, call).0;
            var rework := c' != c && VerdictOf(call).Some? && VerdictOf(call).value.Rework?;
            && (!rework ==> c'.reworks == c.reworks)
            && (rework ==> c.state.Verifying?
                           && if c.reworks < c.limits.maxRework then c'.state.Executing? && c'.reworks == c.reworks + 1
                              else c'.state.Rejected? && c'.reworks == c.reworks)
  {
    hide HistoryOk, SubmissionOk, VotesOk, DigestOf, RevisionDigest, Validate, Answers, Recorded, CheckTerms;
  }

  /** Everything there is to read of a run from formation is on record. */
  lemma {:induction false} RunIsRecorded(
      sha256: string -> string, contractId: string, participants: (string, string), limits: Limits, calls: seq<Call>)
    requires Formable(participants, limits)
    ensures var start := Formed(contractId, participants, limits);
            var now := Run(sha256, start, calls);
            && Sound(sha256, now) && now.limits == limits && now.participants == participants
            && now.rounds == Counters(sha256, start, calls) && now.lastCounterBy == LastToCounter(sha256, start, calls)
            && now.amendmentParticipants == TookPart(sha256, start, calls)
            && (now.state.Rejected? || now.reworks == SentBack(sha256, start, calls))
  {
    hide Sound, Step;
    var start := Formed(contractId, participants, limits);
    FormedSound(sha256, contractId, participants, limits);
    RunSound(sha256, start, calls);
    SameParties(sha256, start, calls);
    if calls != [] {
      var n := |calls| - 1;
      RunIsRecorded(sha256, contractId, participants, limits, calls[..n]);
      var before := Run(sha256, start, calls[..n]);
      StepCounts(sha256, before, calls[n]);
      StepReworks(sha256, before, calls[n]);
      if before.state.Rejected? {
        TerminalAbsorbs(sha256, before, calls[n]);
      }
    }
  }

  // -------------------------------------------------------------- the laws

  predicate TakesPart(participants: (string, string), who: string) {
    who == participants.0 || who == participants.1
  }

  /**
   A counter. It comes from a participant, while terms are being negotiated or amended, who did
   not make the last one. With rounds to spare it clears the votes and stands; the one that
   uses up the rounds fails, and ends the negotiation, or gives up an amendment that only one
   participant had a part in.
   */
  lemma CounterLaw(
      sha256: string -> string, contractId: string, participants: (string, string), limits: Limits, calls: seq<Call>, who: string)
    requires Formable(participants, limits)
    ensures var start := Formed(contractId, participants, limits);
            var now := Run(sha256, start, calls);
            var (next, r) := Step(sha256, now, DoCounter(who));
            var n := Counters(sha256, start, calls) + 1;
            if !TakesPart(participants, who) then r == Failure(NotAParty(who)) && next == now
            else if now.state !in {Proposed, Countered, Amending} then
              r == Failure(IllegalTransition("counter", now.state)) && next == now
            else if LastToCounter(sha256, start, calls) == Some(who) then r == Failure(RepeatedCounter(who)) && next == now
            else
              next.agreedBy == {} && next.agreedTermsDigest == None && next.revisions == now.revisions
              && if n < limits.maxRounds then
                   r == Success(Unit) && next.state == if now.state == Amending then Amending else Countered
                 else
                   r.Failure? && r.error.RoundsExhausted? && r.error.rounds == n && r.error.max == limits.maxRounds
                   && next.state == if now.state == Amending && TookPart(sha256, start, calls) + {who} != {participants.0, participants.1}
                                    then Executing else NoAgreement
  {
    hide Run, HistoryOk, SubmissionOk;
    RunIsRecorded(sha256, contractId, participants, limits, calls);
    var now := Run(sha256, Formed(contractId, participants, limits), calls);
    if TakesPart(participants, who) {
      BothCard(now, now.amendmentParticipants + {who});
    }
  }

  /** Withdrawing: a participant ends what has not been frozen. */
  lemma WithdrawLaw(
      sha256: string -> string, contractId: string, participants: (string, string), limits: Limits, calls: seq<Call>, who: string)
    requires Formable(participants, limits)
    ensures var now := Run(sha256, Formed(contractId, participants, limits), calls);
            var (next, r) := Step(sha256, now, DoWithdraw(who));
            if !TakesPart(participants, who) then r == Failure(NotAParty(who)) && next == now
            else if now.state in {Proposed, Countered, Agreed} then r == Success(Unit) && next == now.(state := Withdrawn)
            else r == Failure(IllegalTransition("withdraw", now.state)) && next == now
  {
    hide Run, Sound;
    RunIsRecorded(sha256, contractId, participants, limits, calls);
  }

  /**
   Expiry: a negotiation ends without agreement, and so does an amendment both participants had
   a part in; one that only one had a part in is given up and the contract goes on.
   */
  lemma ExpiryLaw(
      sha256: string -> string, contractId: string, participants: (string, string), limits: Limits, calls: seq<Call>)
    requires Formable(participants, limits)
    ensures var start := Formed(contractId, participants, limits);
            var now := Run(sha256, start, calls);
            var (next, r) := Step(sha256, now, DoExpire);
            if now.state in {Proposed, Countered, Agreed} then r == Success(Unit) && next == now.(state := NoAgreement)
            else if now.state == Amending then
              r == Success(Unit)
              && next == now.(state := if TookPart(sha256, start, calls) == {participants.0, participants.1} then NoAgreement else Executing)
            else r == Failure(IllegalTransition("expire negotiation", now.state)) && next == now
  {
    hide Run, HistoryOk, SubmissionOk, BoundsOk, VotesOk;
    RunIsRecorded(sha256, contractId, participants, limits, calls);
    var now := Run(sha256, Formed(contractId, participants, limits), calls);
    BothCard(now, now.amendmentParticipants);
  }

  /**
   Agreeing: with terms that have a canonical form, and that are the terms on the table when
   there are any; the second participant to do so makes the agreement.
   */
  lemma AgreeLaw(
      sha256: string -> string, contractId: string, participants: (string, string), limits: Limits, calls: seq<Call>,
      who: string, terms: Json)
    requires Formable(participants, limits)
    ensures var now := Run(sha256, Formed(contractId, participants, limits), calls);
            var (next, r) := Step(sha256, now, DoAgree(who, terms));
            if !TakesPart(participants, who) then r == Failure(NotAParty(who)) && next == now
            else if now.state !in {Proposed, Countered, Agreed} then r == Failure(IllegalTransition("agree", now.state)) && next == now
            else
              match DigestOf(sha256, terms)
              case Failure(e) => r == Failure(NotCanonical(e)) && next == now
              case Success(d) =>
                if now.agreedTermsDigest.Some? && now.agreedTermsDigest.value != d then r == Failure(TermsMismatch) && next == now
                else
                  r == Success(Unit) && next.agreedTermsDigest == Some(d) && next.agreedBy == now.agreedBy + {who}
                  && next.state == if next.agreedBy == {participants.0, participants.1} then Agreed else Proposed
  {
    hide Run, HistoryOk, SubmissionOk, BoundsOk, DigestOf;
    RunIsRecorded(sha256, contractId, participants, limits, calls);
    var now := Run(sha256, Formed(contractId, participants, limits), calls);
    if TakesPart(participants, who) && Open(now.state) && CheckTerms(sha256, now, terms).Success? {
      BothCard(now, now.agreedBy + {who});
      assert (if now.agreedTermsDigest.None? then {} else now.agreedBy) == now.agreedBy;
    }
  }

  /** Who is named as missing has not voted and is the first of the two who has not. */
  lemma MissingNamed(c: Fields)
    ensures Missing(c) != "" ==>
              Missing(c) !in c.agreedBy
              && (Missing(c) == c.participants.0 || (Missing(c) == c.participants.1 && c.participants.0 in c.agreedBy))
    ensures c.participants.0 != "" && c.participants.1 != "" ==>
              (Missing(c) == "" <==> c.participants.0 in c.agreedBy && c.participants.1 in c.agreedBy)
  {
  }

  /** Freezing: the terms both agreed to become the first revision, and work begins. */
  lemma FreezeLaw(
      sha256: string -> string, contractId: string, participants: (string, string), limits: Limits, calls: seq<Call>, terms: Json)
    requires Formable(participants, limits)
    ensures var now := Run(sha256, Formed(contractId, participants, limits), calls);
            var (next, r) := Step(sha256, now, DoFreeze(terms));
            if now.state != Agreed then r == Failure(IllegalTransition("freeze", now.state)) && next == now
            else
              match DigestOf(sha256, terms)
              case Failure(e) => r == Failure(NotCanonical(e)) && next == now
              case Success(d) =>
                if now.agreedTermsDigest != Some(d) then r == Failure(TermsMismatch) && next == now
                else
                  r == Success(Unit) && next.state == Executing && next.agreedBy == {} && next.agreedTermsDigest == None
                  && now.revisions == [] && |next.revisions| == 1
                  && next.revisions[0].content == terms && next.revisions[0].number == 1
  {
    hide Run, RevisionDigest, DigestOf, HistoryOk, SubmissionOk, BoundsOk, Recorded;
    RunIsRecorded(sha256, contractId, participants, limits, calls);
    var now := Run(sha256, Formed(contractId, participants, limits), calls);
    if now.state.Agreed? {
      FreezeOutcome(sha256, now, terms);
      OpenIsUnfrozen(sha256, now);
      if DigestOf(sha256, terms).Success? {
        AcceptedTermsRecord(sha256, now, terms);
      }
    }
  }

  /** A submission: of a participant, while executing, for the latest revision; then it is being verified. */
  lemma SubmitLaw(
      sha256: string -> string, contractId: string, participants: (string, string), limits: Limits, calls: seq<Call>,
      who: string, submission: Submission)
    requires Formable(participants, limits)
    ensures var now := Run(sha256, Formed(contractId, participants, limits), calls);
            var (next, r) := Step(sha256, now, DoSubmit(who, submission));
            if !TakesPart(participants, who) then r == Failure(NotAParty(who)) && next == now
            else if now.state != Executing then r == Failure(IllegalTransition("submit", now.state)) && next == now
            else
              now.revisions != []
              && var latest := now.revisions[|now.revisions| - 1].digest;
                 if submission.againstRevision != latest then
                   r == Failure(StaleRevision(submission.againstRevision, latest)) && next == now
                 else
                   r == Success(Unit)
                   && next == now.(state := Verifying, pendingSubmission := Some(submission), pendingSubmitter := Some(who))
  {
    hide Run, RevisionDigest, SubmissionOk, BoundsOk, VotesOk;
    RunIsRecorded(sha256, contractId, participants, limits, calls);
  }

  /** A record that answers what is pending, from the participant who did not submit it. */
  ghost predicate Answering(now: Fields, record: Verification) {
    && Validate(record).Success? && TakesPart(now.participants, record.verifier)
    && now.pendingSubmission.Some? && now.pendingSubmitter.Some? && now.pendingSubmitter.value != record.verifier
    && record.contractId == now.contractId && record.againstRevision == now.pendingSubmission.value.againstRevision
    && forall x :: x in record.artifacts <==> x in now.pendingSubmission.value.artifacts
  }

  /**
   A verdict, bare or on a record that answers what is pending: an acceptance settles, a
   rejection rejects, and rework sends the work back exactly while it was sent back fewer times
   than the limit allows; after that it rejects.
   */
  lemma VerdictLaw(
      sha256: string -> string, contractId: string, participants: (string, string), limits: Limits, calls: seq<Call>, call: Call)
    requires Formable(participants, limits) && VerdictOf(call).Some?
    ensures var start := Formed(contractId, participants, limits);
            var now := Run(sha256, start, calls);
            var (next, r) := Step(sha256, now, call);
            var given := now.state.Verifying? && (call.DoApplyVerification? ==> Answering(now, call.record));
            && (r.Success? <==> given) && (!given ==> next == now)
            && (given ==>
                  next.pendingSubmission == None && next.pendingSubmitter == None && next.revisions == now.revisions
                  && match VerdictOf(call).value
                     case Accept => next.state == Settled
                     case Reject => next.state == Rejected
                     case Rework(scope) =>
                       next.reworkScope == Some(scope)
                       && if SentBack(sha256, start, calls) < limits.maxRework then next.state == Executing else next.state == Rejected)
  {
    hide Run, RevisionDigest, BoundsOk, VotesOk, HistoryOk, Validate;
    RunIsRecorded(sha256, contractId, participants, limits, calls);
    var now := Run(sha256, Formed(contractId, participants, limits), calls);
    if call.DoApplyVerification? && now.pendingSubmission.Some? {
      SameElements(call.record.artifacts, now.pendingSubmission.value.artifacts);
    }
  }

  /**
   Why a record is refused: it is out of order itself, its verifier takes no part, nothing is
   being verified, or it does not answer what is.
   */
  lemma RecordRefused(
      sha256: string -> string, contractId: string, participants: (string, string), limits: Limits, calls: seq<Call>, record: Verification)
    requires Formable(participants, limits)
    ensures var now := Run(sha256, Formed(contractId, participants, limits), calls);
            var r := Step(sha256, now, DoApplyVerification(record)).1;
            if Validate(record).Failure? then r == Failure(InvalidRecord(Validate(record).error))
            else if !TakesPart(participants, record.verifier) then r == Failure(NotAParty(record.verifier))
            else if now.pendingSubmission.None? then r == Failure(NothingPending) && !now.state.Verifying?
            else if !Answering(now, record) then r == Failure(WrongRecord)
            else r.Success?
  {
    hide Run, RevisionDigest, BoundsOk, VotesOk, HistoryOk, Validate;
    RunIsRecorded(sha256, contractId, participants, limits, calls);
    var now := Run(sha256, Formed(contractId, participants, limits), calls);
    if now.pendingSubmission.Some? {
      SameElements(record.artifacts, now.pendingSubmission.value.artifacts);
    }
  }

  lemma SameElements(xs: seq<string>, ys: seq<string>)
    ensures Elements(xs) == Elements(ys) <==> forall x :: x in xs <==> x in ys
  {
    if Elements(xs) == Elements(ys) {
      forall x ensures x in xs <==> x in ys {
        assert x in xs <==> x in Elements(xs);
        assert x in ys <==> x in Elements(ys);
      }
    }
  }

  /** Opening an amendment: a participant, while executing, while fewer were made than the limit allows. */
  lemma ProposalLaw(
      sha256: string -> string, contractId: string, participants: (string, string), limits: Limits, calls: seq<Call>, who: string)
    requires Formable(participants, limits)
    ensures var now := Run(sha256, Formed(contractId, participants, limits), calls);
            var (next, r) := Step(sha256, now, DoProposeAmendment(who));
            if !TakesPart(participants, who) then r == Failure(NotAParty(who)) && next == now
            else if now.state != Executing then r == Failure(IllegalTransition("propose an amendment", now.state)) && next == now
            else
              now.revisions != []
              && if |now.revisions| - 1 >= limits.maxAmendments then
                   r == Failure(AmendmentsExhausted(now.amendments, limits.maxAmendments))
                   && now.amendments == |now.revisions| - 1 && next == now
                 else
                   r == Success(Unit) && next.state == Amending && next.agreedBy == {} && next.agreedTermsDigest == None
                   && next.revisions == now.revisions
  {
    hide Run, RevisionDigest, SubmissionOk, VotesOk;
    RunIsRecorded(sha256, contractId, participants, limits, calls);
  }

  /**
   A word on an amendment. A refusal takes it off the table and the contract goes on as it
   was; an acceptance needs terms that have a canonical form and are those on the table when
   there are any, and the second participant's makes the next revision of them.
   */
  lemma AmendmentLaw(
      sha256: string -> string, contractId: string, participants: (string, string), limits: Limits, calls: seq<Call>,
      who: string, accept: bool, amended: Option<Json>)
    requires Formable(participants, limits)
    ensures var now := Run(sha256, Formed(contractId, participants, limits), calls);
            var (next, r) := Step(sha256, now, DoDecideAmendment(who, accept, amended));
            if !TakesPart(participants, who) then r == Failure(NotAParty(who)) && next == now
            else if now.state != Amending then r == Failure(IllegalTransition("decide an amendment", now.state)) && next == now
            else if !accept then
              r == Success(Unit) && next.state == Executing && next.revisions == now.revisions && next.amendments == now.amendments
              && next.agreedBy == {} && next.agreedTermsDigest == None
            else if amended.None? then
              r == Failure(IllegalTransition("accept an amendment without terms", Amending)) && next.state == Amending
            else
              match DigestOf(sha256, amended.value)
              case Failure(e) => r == Failure(NotCanonical(e)) && next.state == Amending && next.agreedBy == now.agreedBy
              case Success(d) =>
                if now.agreedTermsDigest.Some? && now.agreedTermsDigest.value != d then
                  r == Failure(TermsMismatch) && next.state == Amending && next.agreedBy == now.agreedBy
                else
                  r == Success(Unit)
                  && if now.agreedBy + {who} != {participants.0, participants.1} then
                       next.state == Amending && next.agreedTermsDigest == Some(d) && next.agreedBy == now.agreedBy + {who}
                       && next.revisions == now.revisions
                     else
                       next.state == Executing && next.amendments == now.amendments + 1 && next.agreedBy == {}
                       && |next.revisions| == |now.revisions| + 1 && next.revisions[..|now.revisions|] == now.revisions
                       && next.revisions[|now.revisions|].content == amended.value
                       && next.revisions[|now.revisions|].number == |now.revisions| + 1
  {
    hide Run, RevisionDigest, SubmissionOk, HistoryOk, DigestOf;
    RunIsRecorded(sha256, contractId, participants, limits, calls);
    var now := Run(sha256, Formed(contractId, participants, limits), calls);
    if TakesPart(participants, who) && now.state.Amending? && accept && amended.Some? && CheckTerms(sha256, now, amended.value).Success? {
      AmendmentAccepted(sha256, now, who, amended.value);
      AcceptedTermsRecord(sha256, now, amended.value);
      BothCard(now, now.agreedBy + {who});
    }
  }

  // ------------------------------------------------------------- an instance

  /** A submission for the latest revision, and the verdict on it. */
  function Round(c: Fields, verdict: Verdict): (Call, Call) {
    (DoSubmit(c.participants.0, Submission(FrozenDigest(c), [], [], "")), DoDecide(verdict))
  }

  lemma ReworkRound(sha256: string -> string, c: Fields)
    requires Sound(sha256, c) && c.state.Executing? && c.reworks < c.limits.maxRework
    ensures var (submit, decide) := Round(c, Verdict.Rework("again"));
            var c' := Step(sha256, Step(sha256, c, submit).0, decide).0;
            Sound(sha256, c') && c'.state.Executing? && c'.reworks == c.reworks + 1 && SameTerms(c, c')
  {
    hide Sound, HistoryOk;
    var (submit, decide) := Round(c, Verdict.Rework("again"));
    StepSound(sha256, c, submit);
    StepSound(sha256, Step(sha256, c, submit).0, decide);
  }

  lemma TwoCalls(sha256: string -> string, c: Fields, before: seq<Call>, first: Call, second: Call)
    ensures Run(sha256, c, before + [first] + [second]) == Step(sha256, Step(sha256, Run(sha256, c, before), first).0, second).0
  {
    hide Step;
    var calls := before + [first] + [second];
    assert calls[..|calls| - 1] == before + [first] && (before + [first])[..|before|] == before;
    assert Run(sha256, c, before + [first]) == Step(sha256, Run(sha256, c, before), first).0;
  }

  lemma {:induction false} ReworksUsedUp(sha256: string -> string, c: Fields, n: nat) returns (calls: seq<Call>)
    requires Sound(sha256, c) && c.state.Executing? && c.reworks == 0 && n <= c.limits.maxRework
    ensures |calls| == 2 * n
    ensures var now := Run(sha256, c, calls);
            Sound(sha256, now) && now.state.Executing? && now.reworks == n && SameTerms(c, now)
  {
    hide Sound, Step;
    calls := [];
    if n > 0 {
      var before := ReworksUsedUp(sha256, c, n - 1);
      var now := Run(sha256, c, before);
      ReworkRound(sha256, now);
      var (submit, decide) := Round(now, Verdict.Rework("again"));
      TwoCalls(sha256, c, before, submit, decide);
      calls := before + [submit] + [decide];
    }
  }

  /** The work can be sent back as often as the limit allows and be accepted after that. */
  lemma ReworkedThenSettled(sha256: string -> string, c: Fields) returns (calls: seq<Call>)
    requires Sound(sha256, c) && c.state.Executing? && c.reworks == 0
    ensures |calls| == 2 * c.limits.maxRework + 2 && Run(sha256, c, calls).state == Settled
    ensures Run(sha256, c, calls).reworks == c.limits.maxRework
  {
    hide Sound;
    var before := ReworksUsedUp(sha256, c, c.limits.maxRework);
    var now := Run(sha256, c, before);
    var (submit, decide) := Round(now, Accept);
    TwoCalls(sha256, c, before, submit, decide);
    calls := before + [submit] + [decide];
  }
}
