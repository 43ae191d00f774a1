/**
 What holds over whole runs of calls on a contract (`src/v2/contract.rs`): revisions record
 only what both participants accepted, negotiation is bounded, terminal states are final.
 */
module ContractRuns {
  import opened Wrappers
  import opened Canon
  import opened Binding
  import opened Verifications
  import opened ContractSteps

  datatype Call =
    | DoCounter(who: string)
    | DoAgree(who: string, terms: Json)
    | DoFreeze(terms: Json)
    | DoWithdraw(who: string)
    | DoExpire
    | DoSubmit(who: string, submission: Submission)
    | DoDecide(verdict: Verdict)
    | DoApplyVerification(record: Verification)
    | DoProposeAmendment(who: string)
    | DoDecideAmendment(who: string, accept: bool, amended: Option<Json>)

  function Unvalued(r: Frozen): Outcome {
    if r.Success? then DONE else Failure(r.error)
  }

  /** The contract after a call, and how the call went. */
  function Step(sha256: string -> string, c: Fields, call: Call): (Fields, Outcome) {
    match call
    case DoCounter(who) => Counter(c, who)
    case DoAgree(who, terms) => Agree(sha256, c, who, terms)
    case DoFreeze(terms) => var r := Freeze(sha256, c, terms); (r.0, Unvalued(r.1))
    case DoWithdraw(who) => Withdraw(c, who)
    case DoExpire => ExpireNegotiation(c)
    case DoSubmit(who, submission) => Submit(c, who, submission)
    case DoDecide(verdict) => Decide(c, verdict)
    case DoApplyVerification(record) => ApplyVerification(c, record)
    case DoProposeAmendment(who) => ProposeAmendment(c, who)
    case DoDecideAmendment(who, accept, amended) =>
      var r := DecideAmendment(sha256, c, who, accept, amended); (r.0, Unvalued(r.1))
  }

  function Run(sha256: string -> string, c: Fields, calls: seq<Call>): Fields {
    if calls == [] then c else Step(sha256, Run(sha256, c, calls[..|calls| - 1]), calls[|calls| - 1]).0
  }

  // ------------------------------------------------------- formed contracts

  /** Sessions have two different participants with non-empty names; limits were checked. */
  predicate Formable(participants: (string, string), limits: Limits) {
    participants.0 != participants.1 && participants.0 != "" && participants.1 != ""
    && limits.maxRounds >= 1 && limits.maxAmendments >= 1
  }

  function Both(c: Fields): set<string> {
    {c.participants.0, c.participants.1}
  }

  // ------------------------------------------------------ one-step invariant

  /** Votes belong to participants, are for one text, and only two of them make an agreement. */
  ghost predicate VotesOk(c: Fields) {
    && c.agreedBy <= Both(c)
    && (c.agreedBy == {} <==> c.agreedTermsDigest.None?)
    && (c.state.Agreed? ==> c.agreedBy == Both(c)) && (c.state.Countered? ==> c.agreedBy == {})
    && (!c.state.Agreed? && !Terminal(c.state) ==> c.agreedBy != Both(c))
  }

  /** Revisions are numbered from one, carry their own digest, and exist exactly after a freeze. */
  ghost predicate HistoryOk(sha256: string -> string, c: Fields) {
    && (forall i | 0 <= i < |c.revisions| ::
          c.revisions[i].number == i + 1
          && RevisionDigest(sha256, c.contractId, i + 1, c.revisions[i].content) == Success(c.revisions[i].digest))
    && (Open(c.state) || c.state.Withdrawn? ==> c.revisions == [])
    && (c.state.Executing? || c.state.Amending? || c.state.Verifying? || c.state.Settled? || c.state.Rejected? ==>
          c.revisions != [])
  }

  ghost predicate BoundsOk(c: Fields) {
    && c.amendments <= c.limits.maxAmendments && (c.state.Amending? ==> c.amendments < c.limits.maxAmendments)
    && |c.revisions| == (if c.revisions == [] then c.amendments else 1 + c.amendments)
    && c.reworks <= c.limits.maxRework
    && (Open(c.state) || c.state.Amending? ==> c.rounds < c.limits.maxRounds)
  }

  ghost predicate SubmissionOk(c: Fields) {
    && (c.state.Verifying? <==> c.pendingSubmission.Some?)
    && (c.pendingSubmission.Some? ==>
          c.pendingSubmission.value.againstRevision == FrozenDigest(c)
          && c.pendingSubmitter.Some? && c.pendingSubmitter.value in Both(c))
  }

  ghost predicate Sound(sha256: string -> string, c: Fields) {
    && Formable(c.participants, c.limits)
    && VotesOk(c) && HistoryOk(sha256, c) && BoundsOk(c) && SubmissionOk(c)
    && c.amendmentParticipants <= Both(c)
  }

  lemma FormedSound(sha256: string -> string, contractId: string, participants: (string, string), limits: Limits)
    requires Formable(participants, limits)
    ensures Sound(sha256, Formed(contractId, participants, limits))
  {
  }

  lemma BothCard(c: Fields, votes: set<string>)
    requires Formable(c.participants, c.limits) && votes <= Both(c)
    ensures |votes| == 2 <==> votes == Both(c)
    ensures |votes| <= 2 && (|votes| < 2 <==> votes != Both(c))
  {
    var a, b := c.participants.0, c.participants.1;
    assert |Both(c)| == 2;
    if votes != Both(c) {
      assert votes <= {a} || votes <= {b};
      assert votes == {} || votes == {a} || votes == {b};
    }
  }

  /** Terms whose own digest can be taken can always be recorded. */
  lemma AcceptedTermsRecord(sha256: string -> string, c: Fields, terms: Json)
    requires DigestOf(sha256, terms).Success?
    ensures Recorded(sha256, c, terms).Success?
    ensures var r := Recorded(sha256, c, terms).value;
            r.number == |c.revisions| + 1 && r.content == terms
            && RevisionDigest(sha256, c.contractId, r.number, terms) == Success(r.digest)
  {
    hide Canonical, RevisionDigest;
    CanonicalIffIntegersOnly(terms, "$");
    RevisionCanonical(sha256, c.contractId, |c.revisions| + 1, terms);
  }

  lemma CounterSound(sha256: string -> string, c: Fields, who: string)
    requires Sound(sha256, c)
    ensures Sound(sha256, Counter(c, who).0)
  {
    hide RevisionDigest;
  }

  lemma AgreeSound(sha256: string -> string, c: Fields, who: string, terms: Json)
    requires Sound(sha256, c)
    ensures Sound(sha256, Agree(sha256, c, who, terms).0)
  {
    hide RevisionDigest, DigestOf;
    var c' := Agree(sha256, c, who, terms).0;
    if Party(c, who).Success? {
      BothCard(c, (if c.agreedTermsDigest.None? then {} else c.agreedBy) + {who});
    }
  }

  /** A revision put after the others keeps the history in order. */
  lemma HistorySnoc(sha256: string -> string, c: Fields, c': Fields, terms: Json)
    requires HistoryOk(sha256, c) && DigestOf(sha256, terms).Success? && Recorded(sha256, c, terms).Success?
    requires c'.contractId == c.contractId && c'.state.Executing?
    requires c'.revisions == c.revisions + [Recorded(sha256, c, terms).value]
    ensures HistoryOk(sha256, c')
  {
    hide RevisionDigest, DigestOf, Recorded;
    AcceptedTermsRecord(sha256, c, terms);
  }

  lemma FreezeSound(sha256: string -> string, c: Fields, terms: Json)
    requires Sound(sha256, c)
    ensures Sound(sha256, Freeze(sha256, c, terms).0)
  {
    hide RevisionDigest, DigestOf, HistoryOk;
    var c' := Freeze(sha256, c, terms).0;
    if c' != c {
      HistorySnoc(sha256, c, c', terms);
      OpenIsUnfrozen(sha256, c);
    }
  }

  lemma OpenIsUnfrozen(sha256: string -> string, c: Fields)
    requires HistoryOk(sha256, c)
    ensures Open(c.state) ==> c.revisions == []
    ensures c.state.Amending? || c.state.Executing? ==> c.revisions != []
  {
  }

  /** An amendment's second acceptance freezes it; the first one waits. */
  lemma AmendmentAccepted(sha256: string -> string, c: Fields, who: string, terms: Json)
    requires Formable(c.participants, c.limits) && VotesOk(c) && Party(c, who).Success? && c.state.Amending?
    requires CheckTerms(sha256, c, terms).Success?
    ensures Recorded(sha256, c, terms).Success?
    ensures var c' := DecideAmendment(sha256, c, who, true, Some(terms)).0;
            var votes := c.agreedBy + {who};
            var joined := c.(amendmentParticipants := c.amendmentParticipants + {who});
            c' == if votes == Both(c) then
                    joined.(amendments := Next(c.amendments), revisions := c.revisions + [Recorded(sha256, c, terms).value],
                            agreedBy := {}, agreedTermsDigest := None, state := Executing)
                  else
                    joined.(agreedTermsDigest := Some(CheckTerms(sha256, c, terms).value), agreedBy := votes)
    ensures DigestOf(sha256, terms) == Success(CheckTerms(sha256, c, terms).value)
    ensures DecideAmendment(sha256, c, who, true, Some(terms)).1.Success?
  {
    hide RevisionDigest, DigestOf, Recorded;
    AcceptedTermsRecord(sha256, c, terms);
    var votes := (if c.agreedTermsDigest.None? then {} else c.agreedBy) + {who};
    assert votes == c.agreedBy + {who};
    BothCard(c, votes);
    var c'' := c.(amendmentParticipants := c.amendmentParticipants + {who},
                  agreedTermsDigest := Some(CheckTerms(sha256, c, terms).value), agreedBy := votes);
    SameRecord(sha256, c, c'', terms);
  }

  lemma DecideAmendmentSound(sha256: string -> string, c: Fields, who: string, accept: bool, terms: Option<Json>)
    requires Sound(sha256, c)
    ensures Sound(sha256, DecideAmendment(sha256, c, who, accept, terms).0)
  {
    hide RevisionDigest, DigestOf, HistoryOk, Recorded;
    if Party(c, who).Success? && c.state.Amending? {
      OpenIsUnfrozen(sha256, c);
      var c' := DecideAmendment(sha256, c, who, accept, terms).0;
      if accept && terms.Some? && CheckTerms(sha256, c, terms.value).Success? {
        AcceptSound(sha256, c, who, terms.value);
      } else {
        SameHistory(sha256, c, c');
      }
    }
  }

  lemma AcceptSound(sha256: string -> string, c: Fields, who: string, terms: Json)
    requires Sound(sha256, c) && Party(c, who).Success? && c.state.Amending? && CheckTerms(sha256, c, terms).Success?
    ensures Sound(sha256, DecideAmendment(sha256, c, who, true, Some(terms)).0)
  {
    hide RevisionDigest, DigestOf, HistoryOk, Recorded, DecideAmendment, CheckTerms;
    OpenIsUnfrozen(sha256, c);
    AmendmentAccepted(sha256, c, who, terms);
    var c' := DecideAmendment(sha256, c, who, true, Some(terms)).0;
    if c.agreedBy + {who} == Both(c) {
      HistorySnoc(sha256, c, c', terms);
    } else {
      SameHistory(sha256, c, c');
    }
  }

  lemma SameRecord(sha256: string -> string, c: Fields, c': Fields, terms: Json)
    requires c'.revisions == c.revisions && c'.contractId == c.contractId
    ensures Recorded(sha256, c', terms) == Recorded(sha256, c, terms)
  {
  }

  lemma SameHistory(sha256: string -> string, c: Fields, c': Fields)
    requires HistoryOk(sha256, c) && c.state.Amending? && c'.contractId == c.contractId && c'.revisions == c.revisions
    requires c'.state.Amending? || c'.state.Executing?
    ensures HistoryOk(sha256, c')
  {
    hide RevisionDigest;
  }

  /** Every call keeps the contract sound. */
  lemma StepSound(sha256: string -> string, c: Fields, call: Call)
    requires Sound(sha256, c)
    ensures Sound(sha256, Step(sha256, c, call).0)
  {
    match call
    case DoCounter(who) => CounterSound(sha256, c, who);
    case DoAgree(who, terms) => AgreeSound(sha256, c, who, terms);
    case DoFreeze(terms) => FreezeSound(sha256, c, terms);
    case DoDecideAmendment(who, accept, amended) => DecideAmendmentSound(sha256, c, who, accept, amended);
    case DoWithdraw(_) => PlainSound(sha256, c, call);
    case DoExpire => PlainSound(sha256, c, call);
    case DoSubmit(_, _) => PlainSound(sha256, c, call);
    case DoDecide(verdict) => DecideSound(sha256, c, verdict);
    case DoApplyVerification(record) => DecideSound(sha256, c, record.verdict);
    case DoProposeAmendment(_) => PlainSound(sha256, c, call);
  }

  lemma PlainSound(sha256: string -> string, c: Fields, call: Call)
    requires Sound(sha256, c) && (call.DoWithdraw? || call.DoExpire? || call.DoSubmit? || call.DoProposeAmendment?)
    ensures Sound(sha256, Step(sha256, c, call).0)
  {
    hide RevisionDigest;
  }

  lemma DecideSound(sha256: string -> string, c: Fields, verdict: Verdict)
    requires Sound(sha256, c)
    ensures Sound(sha256, Decide(c, verdict).0)
  {
    hide RevisionDigest;
  }

  lemma {:induction false} RunSound(sha256: string -> string, c: Fields, calls: seq<Call>)
    requires Sound(sha256, c)
    ensures Sound(sha256, Run(sha256, c, calls))
  {
    hide Sound, Step;
    if calls != [] {
      RunSound(sha256, c, calls[..|calls| - 1]);
      StepSound(sha256, Run(sha256, c, calls[..|calls| - 1]), calls[|calls| - 1]);
    }
  }

  // ----------------------------------------------------------- final states

  /** The four terminal states absorb every call: each fails and changes nothing. */
  lemma TerminalAbsorbs(sha256: string -> string, c: Fields, call: Call)
    requires Sound(sha256, c) && Terminal(c.state)
    ensures Step(sha256, c, call).0 == c && Step(sha256, c, call).1.Failure?
  {
    hide RevisionDigest, DigestOf, Recorded, CheckTerms, HistoryOk, Validate;
  }

  lemma {:induction false} TerminalForever(sha256: string -> string, c: Fields, calls: seq<Call>)
    requires Sound(sha256, c) && Terminal(c.state)
    ensures Run(sha256, c, calls) == c
  {
    hide Step, Sound;
    if calls != [] {
      TerminalForever(sha256, c, calls[..|calls| - 1]);
      TerminalAbsorbs(sha256, c, calls[|calls| - 1]);
    }
  }

  /**
   Freezing an agreed contract cannot fail for want of a vote or of a canonical form: it
   succeeds exactly for the terms both accepted, and then records them.
   */
  lemma FreezeOutcome(sha256: string -> string, c: Fields, terms: Json)
    requires Sound(sha256, c) && c.state.Agreed?
    ensures var r := Freeze(sha256, c, terms).1;
            match DigestOf(sha256, terms)
            case Failure(e) => r == Failure(NotCanonical(e))
            case Success(d) =>
              if c.agreedTermsDigest == Some(d) then
                r.Success? && Freeze(sha256, c, terms).0.revisions == [Revision(1, terms, r.value.value)]
              else r == Failure(TermsMismatch)
  {
    hide RevisionDigest, DigestOf, Recorded, HistoryOk;
    OpenIsUnfrozen(sha256, c);
    if DigestOf(sha256, terms).Success? {
      AcceptedTermsRecord(sha256, c, terms);
    }
  }

  /** A verification that settles a contract came from the other side and stands on passed checks. */
  ghost predicate SettlesProperly(c: Fields, call: Call) {
    && call.DoApplyVerification? && c.state.Verifying? && c.pendingSubmission.Some? && c.pendingSubmitter.Some?
    && var record := call.record;
       && record.verifier in Both(c) && c.pendingSubmitter.value in Both(c) && record.verifier != c.pendingSubmitter.value
       && record.contractId == c.contractId && record.againstRevision == FrozenDigest(c)
       && Elements(record.artifacts) == Elements(c.pendingSubmission.value.artifacts) && record.artifacts != []
       && record.verdict.Accept? && record.checks != []
       && forall i | 0 <= i < |record.checks| :: record.checks[i].passed
  }

  lemma StepSettles(sha256: string -> string, c: Fields, call: Call)
    requires Sound(sha256, c) && !c.state.Settled? && Step(sha256, c, call).0.state.Settled? && !call.DoDecide?
    ensures SettlesProperly(c, call)
  {
    hide RevisionDigest, DigestOf, Recorded, CheckTerms, HistoryOk, Validate;
    if call.DoApplyVerification? {
      AcceptNeedsEvidence(call.record);
    }
  }

  /**
   In a run without bare verdicts, a contract that is settled was settled at some point by a
   record of the participant who had not submitted, for the latest revision.
   */
  lemma {:induction false} SettledByCounterparty(sha256: string -> string, c: Fields, calls: seq<Call>) returns (k: nat)
    requires Sound(sha256, c) && !c.state.Settled? && Run(sha256, c, calls).state.Settled?
    requires forall i | 0 <= i < |calls| :: !calls[i].DoDecide?
    ensures k < |calls| && SettlesProperly(Run(sha256, c, calls[..k]), calls[k])
    ensures Run(sha256, c, calls[..k + 1]) == Run(sha256, c, calls)
  {
    hide Step, Sound, SettlesProperly;
    var n := |calls| - 1;
    var before := Run(sha256, c, calls[..n]);
    RunSound(sha256, c, calls[..n]);
    if before.state.Settled? {
      k := SettledByCounterparty(sha256, c, calls[..n]);
      assert calls[..n][..k] == calls[..k] && calls[..n][..k + 1] == calls[..k + 1];
      TerminalAbsorbs(sha256, before, calls[n]);
    } else {
      StepSettles(sha256, before, calls[n]);
      k := n;
      assert calls[..n + 1] == calls;
    }
  }

  // --------------------------------------------------------- mutual consent

  ghost predicate AcceptsTerms(sha256: string -> string, call: Call, who: string, digest: string) {
    match call
    case DoAgree(w, terms) => w == who && DigestOf(sha256, terms) == Success(digest)
    case DoDecideAmendment(w, accept, amended) =>
      w == who && accept && amended.Some? && DigestOf(sha256, amended.value) == Success(digest)
    case _ => false
  }

  /** A call that takes the terms off the table: a counter, a new amendment, a refusal. */
  ghost predicate TakesBack(call: Call) {
    call.DoCounter? || call.DoProposeAmendment? || (call.DoDecideAmendment? && !call.accept)
  }

  /** The call at `j` was `who` accepting terms with that digest. */
  ghost predicate AcceptsAt(sha256: string -> string, c: Fields, calls: seq<Call>, j: nat, who: string, digest: string) {
    j < |calls| && AcceptsTerms(sha256, calls[j], who, digest) && Step(sha256, Run(sha256, c, calls[..j]), calls[j]).1.Success?
  }

  /** The call at `k` changed the contract by taking the terms off the table. */
  ghost predicate ResetsAt(sha256: string -> string, c: Fields, calls: seq<Call>, k: nat) {
    k < |calls| && TakesBack(calls[k]) && Step(sha256, Run(sha256, c, calls[..k]), calls[k]).0 != Run(sha256, c, calls[..k])
  }

  /** At the end of the run `who` stands by terms with that digest. */
  ghost predicate Consents(sha256: string -> string, c: Fields, calls: seq<Call>, who: string, digest: string) {
    exists j: nat :: AcceptsAt(sha256, c, calls, j, who, digest) && forall k: nat | j < k < |calls| :: !ResetsAt(sha256, c, calls, k)
  }

  ghost predicate VotesMeant(sha256: string -> string, c: Fields, calls: seq<Call>) {
    var now := Run(sha256, c, calls);
    (now.agreedBy != {} ==> now.agreedTermsDigest.Some?)
    && forall who | who in now.agreedBy :: Consents(sha256, c, calls, who, now.agreedTermsDigest.value)
  }

  /** No votes are left, or the same ones for the same terms, or one more for the terms just accepted. */
  ghost predicate Votes(sha256: string -> string, c: Fields, c': Fields, call: Call, r: Outcome) {
    || c'.agreedBy == {}
    || (c'.agreedBy == c.agreedBy && c'.agreedTermsDigest == c.agreedTermsDigest && !(TakesBack(call) && c' != c))
    || (c'.agreedTermsDigest.Some? && r.Success?
        && exists w :: AcceptsTerms(sha256, call, w, c'.agreedTermsDigest.value) && c'.agreedBy == c.agreedBy + {w}
                       && (c.agreedBy == {} || c.agreedTermsDigest == c'.agreedTermsDigest))
  }

  lemma StepVotes(sha256: string -> string, c: Fields, call: Call)
    requires Sound(sha256, c)
    ensures Votes(sha256, c, Step(sha256, c, call).0, call, Step(sha256, c, call).1)
  {
    hide HistoryOk, BoundsOk, SubmissionOk, Votes;
    match call
    case DoAgree(who, terms) => AgreeVotes(sha256, c, who, terms);
    case DoDecideAmendment(who, accept, amended) => AmendmentVotes(sha256, c, who, accept, amended);
    case _ => OtherVotes(sha256, c, call);
  }

  lemma OtherVotes(sha256: string -> string, c: Fields, call: Call)
    requires !call.DoAgree? && !call.DoDecideAmendment?
    ensures Votes(sha256, c, Step(sha256, c, call).0, call, Step(sha256, c, call).1)
  {
    hide CheckTerms, Recorded, Validate, Answers;
  }

  lemma AgreeVotes(sha256: string -> string, c: Fields, who: string, terms: Json)
    requires VotesOk(c)
    ensures var r := Agree(sha256, c, who, terms); Votes(sha256, c, r.0, DoAgree(who, terms), r.1)
  {
    hide DigestOf;
    var c' := Agree(sha256, c, who, terms).0;
    if Party(c, who).Success? && Open(c.state) && CheckTerms(sha256, c, terms).Success? {
      assert AcceptsTerms(sha256, DoAgree(who, terms), who, c'.agreedTermsDigest.value) && c'.agreedBy == c.agreedBy + {who};
    }
  }

  lemma AmendmentVotes(sha256: string -> string, c: Fields, who: string, accept: bool, amended: Option<Json>)
    requires Sound(sha256, c)
    ensures var r := DecideAmendment(sha256, c, who, accept, amended);
            Votes(sha256, c, r.0, DoDecideAmendment(who, accept, amended), Unvalued(r.1))
  {
    hide RevisionDigest, DigestOf, HistoryOk, Recorded, BoundsOk, SubmissionOk;
    if Party(c, who).Success? && c.state.Amending? && accept && amended.Some? && CheckTerms(sha256, c, amended.value).Success? {
      var c' := DecideAmendment(sha256, c, who, true, amended).0;
      AmendmentAccepted(sha256, c, who, amended.value);
      if c'.agreedBy != {} {
        assert AcceptsTerms(sha256, DoDecideAmendment(who, accept, amended), who, c'.agreedTermsDigest.value);
      }
    }
  }

  lemma PrefixFacts(sha256: string -> string, c: Fields, calls: seq<Call>, n: nat, k: nat)
    requires k < n <= |calls|
    ensures calls[..n][..k] == calls[..k] && calls[..n][k] == calls[k]
    ensures forall who, digest :: AcceptsAt(sha256, c, calls[..n], k, who, digest) == AcceptsAt(sha256, c, calls, k, who, digest)
    ensures ResetsAt(sha256, c, calls[..n], k) == ResetsAt(sha256, c, calls, k)
  {
    hide Step, AcceptsTerms, Run;
    assert calls[..n][..k] == calls[..k];
  }

  /** Standing by terms lasts over every call that does not take them back. */
  lemma ConsentLasts(sha256: string -> string, c: Fields, calls: seq<Call>, who: string, digest: string)
    requires calls != [] && Consents(sha256, c, calls[..|calls| - 1], who, digest)
    requires !ResetsAt(sha256, c, calls, |calls| - 1)
    ensures Consents(sha256, c, calls, who, digest)
  {
    hide AcceptsAt, ResetsAt, Run;
    var n := |calls| - 1;
    var j: nat :| AcceptsAt(sha256, c, calls[..n], j, who, digest)
                  && forall k: nat | j < k < n :: !ResetsAt(sha256, c, calls[..n], k);
    AcceptsInRange(sha256, c, calls[..n], j, who, digest);
    PrefixFacts(sha256, c, calls, n, j);
    forall k: nat | j < k < |calls| ensures !ResetsAt(sha256, c, calls, k) {
      if k < n {
        PrefixFacts(sha256, c, calls, n, k);
      }
    }
  }

  lemma AcceptsInRange(sha256: string -> string, c: Fields, calls: seq<Call>, j: nat, who: string, digest: string)
    requires AcceptsAt(sha256, c, calls, j, who, digest)
    ensures j < |calls|
  {
  }

  /** Every vote on record stands for an acceptance in the run that nothing took back since. */
  lemma {:induction false} VotesStand(sha256: string -> string, c: Fields, calls: seq<Call>)
    requires Sound(sha256, c) && c.agreedBy == {}
    ensures VotesMeant(sha256, c, calls)
  {
    hide Step, Sound, AcceptsTerms, Consents;
    if calls != [] {
      var n := |calls| - 1;
      var before, now := Run(sha256, c, calls[..n]), Run(sha256, c, calls);
      VotesStand(sha256, c, calls[..n]);
      RunSound(sha256, c, calls[..n]);
      StepVotes(sha256, before, calls[n]);
      if now.agreedBy != {} {
        forall who | who in now.agreedBy ensures now.agreedTermsDigest.Some? && Consents(sha256, c, calls, who, now.agreedTermsDigest.value) {
          VoteStands(sha256, c, calls, who);
        }
        var who :| who in now.agreedBy;
      }
    }
  }

  lemma VoteStands(sha256: string -> string, c: Fields, calls: seq<Call>, who: string)
    requires Sound(sha256, c) && calls != [] && VotesMeant(sha256, c, calls[..|calls| - 1])
    requires who in Run(sha256, c, calls).agreedBy
    ensures var now := Run(sha256, c, calls);
            now.agreedTermsDigest.Some? && Consents(sha256, c, calls, who, now.agreedTermsDigest.value)
  {
    hide Step, Sound, AcceptsTerms, Consents;
    var n := |calls| - 1;
    var before, now := Run(sha256, c, calls[..n]), Run(sha256, c, calls);
    RunSound(sha256, c, calls[..n]);
    StepVotes(sha256, before, calls[n]);
    if now.agreedBy == before.agreedBy && now.agreedTermsDigest == before.agreedTermsDigest
       && !(TakesBack(calls[n]) && now != before) {
      ConsentLasts(sha256, c, calls, who, now.agreedTermsDigest.value);
    } else {
      var w :| AcceptsTerms(sha256, calls[n], w, now.agreedTermsDigest.value) && now.agreedBy == before.agreedBy + {w}
               && (before.agreedBy == {} || before.agreedTermsDigest == now.agreedTermsDigest);
      AcceptingTakesNothingBack(sha256, calls[n], w, now.agreedTermsDigest.value);
      if who == w {
        ConsentNow(sha256, c, calls, who, now.agreedTermsDigest.value);
      } else {
        ConsentLasts(sha256, c, calls, who, now.agreedTermsDigest.value);
      }
    }
  }

  lemma AcceptingTakesNothingBack(sha256: string -> string, call: Call, who: string, digest: string)
    requires AcceptsTerms(sha256, call, who, digest)
    ensures !TakesBack(call)
  {
  }

  lemma ConsentNow(sha256: string -> string, c: Fields, calls: seq<Call>, who: string, digest: string)
    requires calls != [] && AcceptsTerms(sha256, calls[|calls| - 1], who, digest)
    requires Step(sha256, Run(sha256, c, calls[..|calls| - 1]), calls[|calls| - 1]).1.Success?
    ensures Consents(sha256, c, calls, who, digest)
  {
    hide Step, AcceptsTerms, Run;
    assert AcceptsAt(sha256, c, calls, |calls| - 1, who, digest);
  }

  /** Everyone stands by the content of the newest revision: by a vote on record, or by this very call. */
  ghost predicate Stands(sha256: string -> string, c: Fields, c': Fields, call: Call)
    requires |c'.revisions| == |c.revisions| + 1
  {
    var content := c'.revisions[|c.revisions|].content;
    DigestOf(sha256, content).Success?
    && forall who | who in Both(c) ::
         (who in c.agreedBy && c.agreedTermsDigest == Some(DigestOf(sha256, content).value))
         || AcceptsTerms(sha256, call, who, DigestOf(sha256, content).value)
  }

  /** A call leaves the history alone, or puts one revision after it that both sides stand by. */
  ghost predicate Extends(sha256: string -> string, c: Fields, c': Fields, call: Call, r: Outcome) {
    c'.revisions == c.revisions
    || (|c'.revisions| == |c.revisions| + 1 && c'.revisions[..|c.revisions|] == c.revisions && r.Success?
        && !TakesBack(call) && Stands(sha256, c, c', call))
  }

  lemma StepRecords(sha256: string -> string, c: Fields, call: Call)
    requires Sound(sha256, c)
    ensures Extends(sha256, c, Step(sha256, c, call).0, call, Step(sha256, c, call).1)
  {
    match call
    case DoFreeze(terms) => FreezeRecords(sha256, c, terms);
    case DoDecideAmendment(who, accept, amended) => AmendmentRecords(sha256, c, who, accept, amended);
    case _ => OthersRecordNothing(sha256, c, call);
  }

  lemma OthersRecordNothing(sha256: string -> string, c: Fields, call: Call)
    requires !call.DoFreeze? && !call.DoDecideAmendment?
    ensures Step(sha256, c, call).0.revisions == c.revisions
  {
    hide DigestOf, CheckTerms, Validate;
  }

  lemma FreezeRecords(sha256: string -> string, c: Fields, terms: Json)
    requires Sound(sha256, c)
    ensures Extends(sha256, c, Freeze(sha256, c, terms).0, DoFreeze(terms), Unvalued(Freeze(sha256, c, terms).1))
  {
    hide RevisionDigest, DigestOf, HistoryOk, Recorded;
    if DigestOf(sha256, terms).Success? {
      AcceptedTermsRecord(sha256, c, terms);
    }
  }

  lemma AmendmentRecords(sha256: string -> string, c: Fields, who: string, accept: bool, amended: Option<Json>)
    requires Sound(sha256, c)
    ensures var r := DecideAmendment(sha256, c, who, accept, amended);
            Extends(sha256, c, r.0, DoDecideAmendment(who, accept, amended), Unvalued(r.1))
  {
    hide RevisionDigest, DigestOf, HistoryOk, Recorded;
    if Party(c, who).Success? && c.state.Amending? && accept && amended.Some? && CheckTerms(sha256, c, amended.value).Success? {
      AmendmentAccepted(sha256, c, who, amended.value);
      AcceptedTermsRecord(sha256, c, amended.value);
    }
  }

  /** The revision at `i` was recorded by the last call of the run. */
  ghost predicate RecordsLast(sha256: string -> string, c: Fields, calls: seq<Call>, i: nat) {
    calls != [] && |Run(sha256, c, calls[..|calls| - 1]).revisions| == i && |Run(sha256, c, calls).revisions| == i + 1
  }

  lemma {:induction false} RevisionsAppend(sha256: string -> string, c: Fields, calls: seq<Call>, n: nat)
    requires Sound(sha256, c) && n <= |calls|
    ensures Run(sha256, c, calls[..n]).revisions <= Run(sha256, c, calls).revisions
    decreases |calls| - n
  {
    hide Step, Sound;
    if n == |calls| {
      assert calls[..n] == calls;
    } else {
      assert calls[..n + 1][..n] == calls[..n];
      RunSound(sha256, c, calls[..n]);
      StepRecords(sha256, Run(sha256, c, calls[..n]), calls[n]);
      RevisionsAppend(sha256, c, calls, n + 1);
    }
  }

  /** What is recorded last is what both sides stand by. */
  lemma RecordedByConsent(sha256: string -> string, c: Fields, calls: seq<Call>, i: nat)
    requires Sound(sha256, c) && c.agreedBy == {} && RecordsLast(sha256, c, calls, i)
    ensures var content := Run(sha256, c, calls).revisions[i].content;
            DigestOf(sha256, content).Success?
            && forall who | who in Both(c) :: Consents(sha256, c, calls, who, DigestOf(sha256, content).value)
  {
    hide Step, Sound, AcceptsTerms, Consents, DigestOf;
    var n := |calls| - 1;
    var before, now := Run(sha256, c, calls[..n]), Run(sha256, c, calls);
    RunSound(sha256, c, calls[..n]);
    VotesStand(sha256, c, calls[..n]);
    SameParties(sha256, c, calls[..n]);
    StepRecords(sha256, before, calls[n]);
    forall who | who in Both(c) ensures Consents(sha256, c, calls, who, DigestOf(sha256, now.revisions[i].content).value) {
      if who in before.agreedBy && before.agreedTermsDigest == Some(DigestOf(sha256, now.revisions[i].content).value) {
        ConsentLasts(sha256, c, calls, who, before.agreedTermsDigest.value);
      } else {
        ConsentNow(sha256, c, calls, who, DigestOf(sha256, now.revisions[i].content).value);
      }
    }
  }

  ghost predicate SameTerms(c: Fields, c': Fields) {
    c'.participants == c.participants && c'.contractId == c.contractId && c'.limits == c.limits
  }

  lemma StepParties(sha256: string -> string, c: Fields, call: Call)
    ensures SameTerms(c, Step(sha256, c, call).0)
  {
    hide DigestOf, CheckTerms, Validate, Recorded, Answers;
    match call
    case DoDecideAmendment(who, accept, amended) => DecideParties(sha256, c, who, accept, amended);
    case _ =>
  }

  lemma DecideParties(sha256: string -> string, c: Fields, who: string, accept: bool, amended: Option<Json>)
    ensures SameTerms(c, DecideAmendment(sha256, c, who, accept, amended).0)
  {
    hide CheckTerms, Recorded;
  }

  lemma {:induction false} SameParties(sha256: string -> string, c: Fields, calls: seq<Call>)
    ensures SameTerms(c, Run(sha256, c, calls))
  {
    hide Step;
    if calls != [] {
      SameParties(sha256, c, calls[..|calls| - 1]);
      StepParties(sha256, Run(sha256, c, calls[..|calls| - 1]), calls[|calls| - 1]);
    }
  }

  /**
   Mutual consent. In every run from a formed contract, each recorded revision was recorded by
   some call, and at that point both participants had accepted terms with the digest of the
   recorded content, with no counter, amendment proposal or refusal in between. Revisions are
   numbered 1, 2, 3, ... and once recorded stay where they are.
   */
  lemma {:induction false} MutualConsent(
      sha256: string -> string, contractId: string, participants: (string, string), limits: Limits, calls: seq<Call>, i: nat)
    returns (n: nat)
    requires Formable(participants, limits) && i < |Run(sha256, Formed(contractId, participants, limits), calls).revisions|
    ensures var c, now := Formed(contractId, participants, limits), Run(sha256, Formed(contractId, participants, limits), calls);
            && n <= |calls| && RecordsLast(sha256, c, calls[..n], i)
            && Run(sha256, c, calls[..n]).revisions <= now.revisions && now.revisions[i].number == i + 1
            && DigestOf(sha256, now.revisions[i].content).Success?
            && forall who | who in {participants.0, participants.1} ::
                 Consents(sha256, c, calls[..n], who, DigestOf(sha256, now.revisions[i].content).value)
  {
    hide Step, AcceptsTerms, Consents, DigestOf, RevisionDigest;
    var c := Formed(contractId, participants, limits);
    FormedSound(sha256, contractId, participants, limits);
    RunSound(sha256, c, calls);
    n := FindRecording(sha256, c, calls, i);
    RecordedByConsent(sha256, c, calls[..n], i);
    RevisionsAppend(sha256, c, calls, n);
  }

  lemma {:induction false} FindRecording(sha256: string -> string, c: Fields, calls: seq<Call>, i: nat) returns (n: nat)
    requires Sound(sha256, c) && |c.revisions| <= i < |Run(sha256, c, calls).revisions|
    ensures n <= |calls| && RecordsLast(sha256, c, calls[..n], i)
  {
    hide Step, Sound;
    n := |calls|;
    assert calls[..n] == calls;
    if i < |Run(sha256, c, calls[..n - 1]).revisions| {
      n := FindRecording(sha256, c, calls[..|calls| - 1], i);
      assert calls[..|calls| - 1][..n] == calls[..n];
    } else {
      RunSound(sha256, c, calls[..n - 1]);
      StepRecords(sha256, Run(sha256, c, calls[..n - 1]), calls[n - 1]);
    }
  }

  function TermsOf(call: Call): Option<Json> {
    match call
    case DoAgree(_, terms) => Some(terms)
    case DoDecideAmendment(_, _, amended) => amended
    case _ => None
  }

  /** With collision-free digests, who accepted the recorded digest accepted the recorded content. */
  lemma AcceptedIsRecorded(sha256: string -> string, call: Call, who: string, content: Json)
    requires forall s, t :: sha256(s) == sha256(t) ==> s == t
    requires DigestOf(sha256, content).Success? && AcceptsTerms(sha256, call, who, DigestOf(sha256, content).value)
    requires WellFormed(content) && (TermsOf(call).Some? ==> WellFormed(TermsOf(call).value))
    ensures TermsOf(call).Some? && Same(TermsOf(call).value, content)
  {
    hide Canonical;
    var terms := TermsOf(call).value;
    CanonicalIffIntegersOnly(terms, "$");
    CanonicalIffIntegersOnly(content, "$");
    CanonicalTextDecidesValue(terms, content, "$");
  }

  // --------------------------------------------------- what failures change

  /** A counter that is allowed and uses up the last round. */
  predicate UsesLastRound(c: Fields, call: Call) {
    call.DoCounter? && Party(c, call.who).Success? && (c.state.Proposed? || c.state.Countered? || c.state.Amending?)
    && c.lastCounterBy != Some(call.who) && Next(c.rounds) >= c.limits.maxRounds
  }

  /** A participant's first word on an amendment, which goes on record before it is judged. */
  predicate JoinsAmendment(c: Fields, call: Call) {
    call.DoDecideAmendment? && Party(c, call.who).Success? && c.state.Amending? && call.who !in c.amendmentParticipants
  }

  /**
   A failed call changes nothing, except that running out of rounds ends the negotiation and
   that a participant new to an amendment stays on record as having taken part.
   */
  lemma FailedCallChanges(sha256: string -> string, c: Fields, call: Call)
    requires Sound(sha256, c) && Step(sha256, c, call).1.Failure?
    ensures Step(sha256, c, call).0 == c <==> !UsesLastRound(c, call) && !JoinsAmendment(c, call)
    ensures JoinsAmendment(c, call) ==>
              Step(sha256, c, call).0 == c.(amendmentParticipants := c.amendmentParticipants + {call.who})
  {
    match call
    case DoFreeze(terms) => FreezeFails(sha256, c, terms);
    case DoDecideAmendment(who, accept, amended) => DecideAmendmentFails(sha256, c, who, accept, amended);
    case _ => OtherFails(sha256, c, call);
  }

  lemma FreezeFails(sha256: string -> string, c: Fields, terms: Json)
    ensures Freeze(sha256, c, terms).1.Failure? ==> Freeze(sha256, c, terms).0 == c
  {
    hide CheckTerms, Recorded;
  }

  lemma DecideAmendmentFails(sha256: string -> string, c: Fields, who: string, accept: bool, amended: Option<Json>)
    requires Sound(sha256, c)
    ensures var r := DecideAmendment(sha256, c, who, accept, amended);
            r.1.Failure? ==>
              r.0 == (if Party(c, who).Success? && c.state.Amending?
                      then c.(amendmentParticipants := c.amendmentParticipants + {who}) else c)
  {
    hide HistoryOk, ContentDigest, Recorded;
    if Party(c, who).Success? && c.state.Amending? && accept && amended.Some? && CheckTerms(sha256, c, amended.value).Success? {
      AmendmentAccepted(sha256, c, who, amended.value);
    }
  }

  lemma OtherFails(sha256: string -> string, c: Fields, call: Call)
    requires !call.DoFreeze? && !call.DoDecideAmendment? && Step(sha256, c, call).1.Failure?
    ensures Step(sha256, c, call).0 == c <==> !UsesLastRound(c, call)
  {
    hide CheckTerms, Validate, Answers;
  }

  /** It does happen: with a single round, the first counter fails and ends the negotiation. */
  lemma FailedCounterEndsNegotiation(sha256: string -> string)
    ensures var c := Formed("c-1", ("a", "b"), Limits(1, 1, 0));
            Sound(sha256, c) && Step(sha256, c, DoCounter("a")).1 == Failure(RoundsExhausted(1, 1))
            && Step(sha256, c, DoCounter("a")).0.state == NoAgreement
  {
    FormedSound(sha256, "c-1", ("a", "b"), Limits(1, 1, 0));
  }

  lemma RunOfThree(sha256: string -> string, c: Fields, x: Call, y: Call, z: Call)
    ensures Run(sha256, c, [x, y, z]) == Step(sha256, Step(sha256, Step(sha256, c, x).0, y).0, z).0
  {
    hide Step;
    assert [x, y, z][..2] == [x, y] && [x, y][..1] == [x] && [x][..0] == [];
    assert Run(sha256, c, [x]) == Step(sha256, c, x).0;
    assert Run(sha256, c, [x, y]) == Step(sha256, Run(sha256, c, [x]), y).0;
  }

  lemma BothAgree(sha256: string -> string, c: Fields, terms: Json)
    requires c == Formed(c.contractId, c.participants, c.limits) && c.participants.0 != c.participants.1 && IntegersOnly(terms)
    ensures var twice := Agree(sha256, Agree(sha256, c, c.participants.0, terms).0, c.participants.1, terms).0;
            DigestOf(sha256, terms).Success? && twice.state.Agreed? && twice.agreedTermsDigest == Some(DigestOf(sha256, terms).value)
            && twice == c.(state := Agreed, agreedBy := twice.agreedBy, agreedTermsDigest := twice.agreedTermsDigest)
  {
    hide Canonical;
    CanonicalIffIntegersOnly(terms, "$");
    var once := Agree(sha256, c, c.participants.0, terms).0;
    assert once.agreedBy == {c.participants.0};
    assert |{c.participants.0, c.participants.1}| == 2;
  }

  /** Terms whose numbers are integers, agreed by both, become the first revision. */
  lemma AgreedAndFrozen(sha256: string -> string, c: Fields, terms: Json)
    requires Formable(c.participants, c.limits) && c == Formed(c.contractId, c.participants, c.limits) && IntegersOnly(terms)
    ensures var (a, b) := c.participants;
            var frozen := Run(sha256, c, [DoAgree(a, terms), DoAgree(b, terms), DoFreeze(terms)]);
            Sound(sha256, frozen) && frozen.state.Executing? && frozen.amendments == 0
            && frozen.participants == c.participants && frozen.limits == c.limits
  {
    hide RevisionDigest, Canonical, DigestOf, Recorded, Sound, Agree, CheckTerms;
    var (a, b) := c.participants;
    RunOfThree(sha256, c, DoAgree(a, terms), DoAgree(b, terms), DoFreeze(terms));
    BothAgree(sha256, c, terms);
    FormedSound(sha256, c.contractId, c.participants, c.limits);
    StepSound(sha256, c, DoAgree(a, terms));
    var once := Agree(sha256, c, a, terms).0;
    StepSound(sha256, once, DoAgree(b, terms));
    var twice := Agree(sha256, once, b, terms).0;
    FreezeOutcome(sha256, twice, terms);
    StepSound(sha256, twice, DoFreeze(terms));
  }

  /**
   It does happen: on a contract that was agreed, frozen and opened for an amendment, the other
   participant's acceptance without terms is refused, and the contract is not what it was.
   */
  lemma RefusedAcceptanceStaysOnRecord(sha256: string -> string)
    ensures var start := Formed("c-1", ("a", "b"), Limits(2, 1, 0));
            var frozen := Run(sha256, start, [DoAgree("a", Null), DoAgree("b", Null), DoFreeze(Null)]);
            var c := Step(sha256, frozen, DoProposeAmendment("a")).0;
            var call := DoDecideAmendment("b", true, None);
            && Sound(sha256, c) && JoinsAmendment(c, call)
            && Step(sha256, c, call).1 == Failure(IllegalTransition("accept an amendment without terms", Amending))
            && c.amendmentParticipants == {"a"} && Step(sha256, c, call).0 == c.(amendmentParticipants := {"a", "b"})
  {
    hide Run, Sound;
    var start := Formed("c-1", ("a", "b"), Limits(2, 1, 0));
    AgreedAndFrozen(sha256, start, Null);
    StepSound(sha256, Run(sha256, start, [DoAgree("a", Null), DoAgree("b", Null), DoFreeze(Null)]), DoProposeAmendment("a"));
  }
}
