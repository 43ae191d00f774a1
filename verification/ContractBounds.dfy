/**
 How long a contract can go on (`src/v2/contract.rs`). Every call that changes a contract uses
 up part of a finite allowance, unless it gives up an amendment without agreement: those the
 limits leave unbounded, and the last lemma shows that they are.
 */
module ContractBounds {
  import opened Wrappers
  import opened Canon
  import opened Binding
  import opened Verifications
  import opened ContractSteps
  import opened ContractRuns

  // ------------------------------------------------------------ the measure

  function FreezesLeft(c: Fields): int {
    if c.revisions == [] then c.limits.maxAmendments + 1 else c.limits.maxAmendments - c.amendments
  }

  function ReworksLeft(c: Fields): int {
    c.limits.maxRework - c.reworks
  }

  function Stage(c: Fields): nat {
    if Terminal(c.state) then 0 else if c.state.Executing? then 2 else 1
  }

  function RoundsLeft(c: Fields): int {
    if Open(c.state) || c.state.Amending? then c.limits.maxRounds - c.rounds else 0
  }

  function VotesLeft(c: Fields): int {
    if Open(c.state) || c.state.Amending? then 2 - |c.agreedBy| else 0
  }

  function VoicesLeft(c: Fields): int {
    if c.state.Amending? then 2 - |c.amendmentParticipants| else 0
  }

  function Mix(high: int, base: int, low: int): int {
    high * base + low
  }

  /** The six parts as one number, the weightiest first. */
  function Weight(c: Fields): int {
    Mix(Mix(Mix(Mix(Mix(FreezesLeft(c), c.limits.maxRework + 1, ReworksLeft(c)), 3, Stage(c)),
                c.limits.maxRounds + 1, RoundsLeft(c)), 3, VotesLeft(c)), 3, VoicesLeft(c))
  }

  lemma MixOrder(h: int, h': int, base: int, l: int, l': int)
    requires 0 <= l < base && 0 <= l' < base
    ensures h' < h || (h' == h && l' < l) ==> Mix(h', base, l') < Mix(h, base, l)
    ensures h' == h && l' == l ==> Mix(h', base, l') == Mix(h, base, l)
    ensures h >= 0 ==> Mix(h, base, l) >= 0
  {
    if h' < h {
      Distribute(h', h - h', base);
      AtLeastOnce(h - h', base);
    }
    if h >= 0 {
      NonNegative(h, base);
    }
  }

  lemma Distribute(a: int, b: int, base: int)
    ensures (a + b) * base == a * base + b * base
  {
  }

  lemma {:induction false} AtLeastOnce(d: int, base: int)
    requires d >= 1 && base > 0
    ensures d * base >= base
    decreases d
  {
    if d > 1 {
      AtLeastOnce(d - 1, base);
      Distribute(d - 1, 1, base);
    }
  }

  lemma NonNegative(h: int, base: int)
    requires h >= 0 && base > 0
    ensures h * base >= 0
  {
    if h >= 1 {
      AtLeastOnce(h, base);
    }
  }

  /** An amendment ends without a new revision and the contract goes on as before. */
  ghost predicate Lapses(sha256: string -> string, c: Fields, call: Call) {
    var c' := Step(sha256, c, call).0;
    c.state.Amending? && c'.state.Executing? && c'.revisions == c.revisions
  }

  ghost predicate LexLess(c': Fields, c: Fields) {
    || FreezesLeft(c') < FreezesLeft(c)
    || (FreezesLeft(c') == FreezesLeft(c)
        && (|| ReworksLeft(c') < ReworksLeft(c)
            || (ReworksLeft(c') == ReworksLeft(c)
                && (|| Stage(c') < Stage(c)
                    || (Stage(c') == Stage(c)
                        && (|| RoundsLeft(c') < RoundsLeft(c)
                            || (RoundsLeft(c') == RoundsLeft(c)
                                && (|| VotesLeft(c') < VotesLeft(c)
                                    || (VotesLeft(c') == VotesLeft(c) && VoicesLeft(c') < VoicesLeft(c))))))))))
  }

  ghost predicate InRange(c: Fields) {
    && 0 <= FreezesLeft(c) && 0 <= ReworksLeft(c) <= c.limits.maxRework && 0 <= RoundsLeft(c) <= c.limits.maxRounds
    && 0 <= VotesLeft(c) <= 2 && 0 <= VoicesLeft(c) <= 2
  }

  lemma SoundInRange(sha256: string -> string, c: Fields)
    requires Sound(sha256, c)
    ensures InRange(c)
  {
    BothCard(c, c.agreedBy);
    BothCard(c, c.amendmentParticipants);
  }

  lemma LexIsWeight(c: Fields, c': Fields)
    requires InRange(c) && InRange(c') && c'.limits == c.limits
    ensures LexLess(c', c) ==> Weight(c') < Weight(c)
    ensures Weight(c) >= 0
  {
    hide Mix, FreezesLeft, ReworksLeft, Stage, RoundsLeft, VotesLeft, VoicesLeft;
    StageRange(c);
    StageRange(c');
    var a, a' := Mix(FreezesLeft(c), c.limits.maxRework + 1, ReworksLeft(c)), Mix(FreezesLeft(c'), c.limits.maxRework + 1, ReworksLeft(c'));
    MixOrder(FreezesLeft(c), FreezesLeft(c'), c.limits.maxRework + 1, ReworksLeft(c), ReworksLeft(c'));
    var b, b' := Mix(a, 3, Stage(c)), Mix(a', 3, Stage(c'));
    MixOrder(a, a', 3, Stage(c), Stage(c'));
    var d, d' := Mix(b, c.limits.maxRounds + 1, RoundsLeft(c)), Mix(b', c.limits.maxRounds + 1, RoundsLeft(c'));
    MixOrder(b, b', c.limits.maxRounds + 1, RoundsLeft(c), RoundsLeft(c'));
    var e, e' := Mix(d, 3, VotesLeft(c)), Mix(d', 3, VotesLeft(c'));
    MixOrder(d, d', 3, VotesLeft(c), VotesLeft(c'));
    MixOrder(e, e', 3, VoicesLeft(c), VoicesLeft(c'));
  }

  lemma StageRange(c: Fields)
    ensures 0 <= Stage(c) < 3
  {
  }

  // ------------------------------------------------------------- one call

  lemma CounterDecreases(sha256: string -> string, c: Fields, who: string)
    requires Sound(sha256, c) && Counter(c, who).0 != c && !Lapses(sha256, c, DoCounter(who))
    ensures LexLess(Counter(c, who).0, c)
  {
    hide HistoryOk, SubmissionOk;
  }

  lemma AgreeDecreases(sha256: string -> string, c: Fields, who: string, terms: Json)
    requires Sound(sha256, c) && Agree(sha256, c, who, terms).0 != c
    ensures LexLess(Agree(sha256, c, who, terms).0, c)
  {
    hide HistoryOk, SubmissionOk, ContentDigest;
    var votes := (if c.agreedTermsDigest.None? then {} else c.agreedBy) + {who};
    assert votes == c.agreedBy + {who};
    BothCard(c, votes);
    BothCard(c, c.agreedBy);
    MoreVotes(c.agreedBy, who);
  }

  lemma MoreVotes(votes: set<string>, who: string)
    ensures who !in votes ==> |votes + {who}| == |votes| + 1
    ensures who in votes ==> votes + {who} == votes
  {
  }

  lemma FreezeDecreases(sha256: string -> string, c: Fields, terms: Json)
    requires Sound(sha256, c) && Freeze(sha256, c, terms).0 != c
    ensures LexLess(Freeze(sha256, c, terms).0, c)
  {
    hide SubmissionOk, CheckTerms, Recorded, RevisionDigest;
  }

  lemma DecideAmendmentDecreases(sha256: string -> string, c: Fields, who: string, accept: bool, amended: Option<Json>)
    requires Sound(sha256, c) && DecideAmendment(sha256, c, who, accept, amended).0 != c
    requires !Lapses(sha256, c, DoDecideAmendment(who, accept, amended))
    ensures LexLess(DecideAmendment(sha256, c, who, accept, amended).0, c)
  {
    hide HistoryOk, SubmissionOk, ContentDigest, Recorded, LexLess, Lapses;
    RefusalLapses(sha256, c, who, amended);
    if accept {
      if amended.Some? && CheckTerms(sha256, c, amended.value).Success? {
        AcceptDecreases(sha256, c, who, amended.value);
      } else {
        VoiceAdded(sha256, c, who);
      }
    }
  }

  lemma RefusalLapses(sha256: string -> string, c: Fields, who: string, amended: Option<Json>)
    ensures DecideAmendment(sha256, c, who, false, amended).0 != c ==> Lapses(sha256, c, DoDecideAmendment(who, false, amended))
  {
    hide CheckTerms, Recorded;
  }

  lemma VoiceAdded(sha256: string -> string, c: Fields, who: string)
    requires Sound(sha256, c) && Party(c, who).Success? && c.state.Amending?
    requires c.(amendmentParticipants := c.amendmentParticipants + {who}) != c
    ensures LexLess(c.(amendmentParticipants := c.amendmentParticipants + {who}), c)
  {
    hide HistoryOk, SubmissionOk;
    MoreVotes(c.amendmentParticipants, who);
  }

  lemma AcceptDecreases(sha256: string -> string, c: Fields, who: string, terms: Json)
    requires Sound(sha256, c) && Party(c, who).Success? && c.state.Amending? && CheckTerms(sha256, c, terms).Success?
    requires DecideAmendment(sha256, c, who, true, Some(terms)).0 != c
    ensures LexLess(DecideAmendment(sha256, c, who, true, Some(terms)).0, c)
  {
    hide HistoryOk, SubmissionOk, ContentDigest, Recorded, DecideAmendment;
    OpenIsUnfrozen(sha256, c);
    AmendmentAccepted(sha256, c, who, terms);
    MoreVotes(c.amendmentParticipants, who);
    MoreVotes(c.agreedBy, who);
    BothCard(c, c.agreedBy + {who});
    BothCard(c, c.amendmentParticipants + {who});
  }

  lemma OtherDecreases(sha256: string -> string, c: Fields, call: Call)
    requires Sound(sha256, c) && Step(sha256, c, call).0 != c && !Lapses(sha256, c, call)
    requires call.DoWithdraw? || call.DoExpire? || call.DoSubmit? || call.DoProposeAmendment?
    ensures LexLess(Step(sha256, c, call).0, c)
  {
    hide HistoryOk;
  }

  lemma VerdictDecreases(c: Fields, verdict: Verdict)
    requires BoundsOk(c) && Decide(c, verdict).0 != c
    ensures LexLess(Decide(c, verdict).0, c)
  {
  }

  /** A call that changes the contract without letting an amendment lapse uses up some allowance. */
  lemma StepDecreases(sha256: string -> string, c: Fields, call: Call)
    requires Sound(sha256, c) && Step(sha256, c, call).0 != c && !Lapses(sha256, c, call)
    ensures LexLess(Step(sha256, c, call).0, c)
  {
    hide HistoryOk, SubmissionOk, VotesOk, LexLess, Lapses, Validate, Answers;
    match call
    case DoCounter(who) => CounterDecreases(sha256, c, who);
    case DoAgree(who, terms) => AgreeDecreases(sha256, c, who, terms);
    case DoFreeze(terms) => FreezeDecreases(sha256, c, terms);
    case DoDecideAmendment(who, accept, amended) => DecideAmendmentDecreases(sha256, c, who, accept, amended);
    case DoDecide(verdict) => VerdictDecreases(c, verdict);
    case DoApplyVerification(record) => VerdictDecreases(c, record.verdict);
    case _ => OtherDecreases(sha256, c, call);
  }

  // ------------------------------------------------------------ whole runs

  /** How many calls of the run changed the contract. */
  function Effective(sha256: string -> string, c: Fields, calls: seq<Call>): nat {
    if calls == [] then 0
    else
      var before, call := Run(sha256, c, calls[..|calls| - 1]), calls[|calls| - 1];
      Effective(sha256, c, calls[..|calls| - 1]) + if Step(sha256, before, call).0 != before then 1 else 0
  }

  ghost predicate NoLapse(sha256: string -> string, c: Fields, calls: seq<Call>) {
    forall k | 0 <= k < |calls| :: !Lapses(sha256, Run(sha256, c, calls[..k]), calls[k])
  }

  /** How many amendments of the run were given up without agreement. */
  ghost function Lapsed(sha256: string -> string, c: Fields, calls: seq<Call>): nat {
    if calls == [] then 0
    else
      var n := |calls| - 1;
      Lapsed(sha256, c, calls[..n]) + if Lapses(sha256, Run(sha256, c, calls[..n]), calls[n]) then 1 else 0
  }

  /** A lapse leaves a frozen contract, which has one freeze less to go than a fresh one. */
  lemma LapseBelowStart(sha256: string -> string, start: Fields, c: Fields, call: Call)
    requires Sound(sha256, c) && c.limits == start.limits && start == Formed(start.contractId, start.participants, start.limits)
    requires Lapses(sha256, c, call)
    ensures LexLess(Step(sha256, c, call).0, start)
  {
    hide SubmissionOk, VotesOk;
    StepSound(sha256, c, call);
    StepParties(sha256, c, call);
    FrozenWhileExecuting(sha256, Step(sha256, c, call).0);
  }

  lemma FrozenWhileExecuting(sha256: string -> string, c: Fields)
    requires Sound(sha256, c) && c.state.Executing?
    ensures c.revisions != []
  {
  }

  /** What a run has used up and has left, against an allowance that every lapse renews. */
  lemma {:induction false} EffectiveWithinAllowance(sha256: string -> string, c: Fields, calls: seq<Call>)
    requires Sound(sha256, c) && c == Formed(c.contractId, c.participants, c.limits)
    ensures Effective(sha256, c, calls) + Weight(Run(sha256, c, calls)) <= (Lapsed(sha256, c, calls) + 1) * Weight(c)
    ensures Weight(Run(sha256, c, calls)) >= 0
  {
    hide Step, Sound, Weight, LexLess, Lapses, InRange;
    var now := Run(sha256, c, calls);
    RunSound(sha256, c, calls);
    SoundInRange(sha256, now);
    LexIsWeight(now, now);
    if calls != [] {
      var n := |calls| - 1;
      var before, lapsed := Run(sha256, c, calls[..n]), Lapsed(sha256, c, calls[..n]);
      EffectiveWithinAllowance(sha256, c, calls[..n]);
      RunSound(sha256, c, calls[..n]);
      SameParties(sha256, c, calls[..n]);
      StepParties(sha256, before, calls[n]);
      SoundInRange(sha256, before);
      if Lapses(sha256, before, calls[n]) {
        LapseBelowStart(sha256, c, before, calls[n]);
        SoundInRange(sha256, c);
        LexIsWeight(c, now);
        Distribute(lapsed + 1, 1, Weight(c));
      } else if now != before {
        StepDecreases(sha256, before, calls[n]);
        LexIsWeight(before, now);
      }
    }
  }

  lemma {:induction false} NoneLapsed(sha256: string -> string, c: Fields, calls: seq<Call>)
    requires NoLapse(sha256, c, calls)
    ensures Lapsed(sha256, c, calls) == 0
  {
    hide Lapses, Run;
    if calls != [] {
      var n := |calls| - 1;
      forall k | 0 <= k < n ensures !Lapses(sha256, Run(sha256, c, calls[..n][..k]), calls[..n][k]) {
        assert calls[..n][..k] == calls[..k];
      }
      NoneLapsed(sha256, c, calls[..n]);
    }
  }

  /** How many effective calls the limits allow as long as no amendment lapses. */
  function Allowance(limits: Limits): int {
    ((((limits.maxAmendments + 1) * (limits.maxRework + 1) + limits.maxRework) * 3 + 1)
     * (limits.maxRounds + 1) + limits.maxRounds) * 9 + 6
  }

  lemma FormedWeight(contractId: string, participants: (string, string), limits: Limits)
    ensures Weight(Formed(contractId, participants, limits)) == Allowance(limits)
  {
  }

  /**
   Every run is bounded: from formation on, calls that change the contract are bounded by its
   limits, once more for every amendment that was refused or expired unanswered.
   */
  lemma RunsBounded(
      sha256: string -> string, contractId: string, participants: (string, string), limits: Limits, calls: seq<Call>)
    requires Formable(participants, limits)
    ensures var start := Formed(contractId, participants, limits);
            Effective(sha256, start, calls) <= (Lapsed(sha256, start, calls) + 1) * Allowance(limits)
  {
    hide Sound, Step, Weight, Allowance;
    FormedSound(sha256, contractId, participants, limits);
    FormedWeight(contractId, participants, limits);
    EffectiveWithinAllowance(sha256, Formed(contractId, participants, limits), calls);
  }

  /** So without such an amendment the limits alone are the bound. */
  lemma NegotiationBounded(
      sha256: string -> string, contractId: string, participants: (string, string), limits: Limits, calls: seq<Call>)
    requires Formable(participants, limits) && NoLapse(sha256, Formed(contractId, participants, limits), calls)
    ensures Effective(sha256, Formed(contractId, participants, limits), calls) <= Allowance(limits)
  {
    hide Step, NoLapse, Allowance;
    NoneLapsed(sha256, Formed(contractId, participants, limits), calls);
    RunsBounded(sha256, contractId, participants, limits, calls);
  }

  /** Once frozen, revisions, amendments and reworks stay within the limits, and so do rounds while negotiating. */
  lemma LimitsRespected(
      sha256: string -> string, contractId: string, participants: (string, string), limits: Limits, calls: seq<Call>)
    requires Formable(participants, limits)
    ensures var now := Run(sha256, Formed(contractId, participants, limits), calls);
            && (now.revisions != [] ==> |now.revisions| == 1 + now.amendments <= 1 + limits.maxAmendments)
            && now.reworks <= limits.maxRework
            && (Open(now.state) || now.state.Amending? ==> now.rounds < limits.maxRounds)
            && (now.state.Agreed? ==> now.agreedBy == {participants.0, participants.1})
  {
    hide Step, HistoryOk, SubmissionOk;
    FormedSound(sha256, contractId, participants, limits);
    RunSound(sha256, Formed(contractId, participants, limits), calls);
    SameParties(sha256, Formed(contractId, participants, limits), calls);
  }

  /** How an amendment is given up: refused, or left to expire with nobody else having answered. */
  function GivingUp(c: Fields, expires: bool): Call {
    if expires then DoExpire else DoDecideAmendment(c.participants.0, false, None)
  }

  /** A proposal and its end: two effective calls, and the contract is where it was. */
  lemma LapseCycle(sha256: string -> string, c: Fields, expires: bool)
    requires c.state.Executing? && c.amendments < c.limits.maxAmendments
    ensures var middle := Step(sha256, c, DoProposeAmendment(c.participants.0)).0;
            var after := Step(sha256, middle, GivingUp(c, expires)).0;
            middle != c && after != middle && !Lapses(sha256, c, DoProposeAmendment(c.participants.0))
            && Lapses(sha256, middle, GivingUp(c, expires))
            && after.state.Executing? && SameTerms(c, after) && after.amendments == c.amendments
  {
    hide CheckTerms;
    assert |{c.participants.0}| == 1;
  }

  lemma TwoMore(sha256: string -> string, c: Fields, before: seq<Call>, first: Call, second: Call)
    ensures var now := Run(sha256, c, before);
            var middle := Step(sha256, now, first).0;
            var after := Step(sha256, middle, second).0;
            var calls := before + [first] + [second];
            Run(sha256, c, calls) == after
            && (middle != now && after != middle ==> Effective(sha256, c, calls) == Effective(sha256, c, before) + 2)
            && (!Lapses(sha256, now, first) && Lapses(sha256, middle, second) ==>
                  Lapsed(sha256, c, calls) == Lapsed(sha256, c, before) + 1)
  {
    hide Step, Lapses;
    var calls := before + [first] + [second];
    assert calls[..|calls| - 1] == before + [first] && (before + [first])[..|before|] == before;
    assert Run(sha256, c, before + [first]) == Step(sha256, Run(sha256, c, before), first).0;
  }

  /** The limits say nothing about such amendments: there are runs with any number of them, refused or expired. */
  lemma {:induction false} LapsesUnbounded(sha256: string -> string, c: Fields, n: nat, expires: bool) returns (calls: seq<Call>)
    requires c.state.Executing? && c.amendments < c.limits.maxAmendments
    ensures |calls| == 2 * n && Effective(sha256, c, calls) == 2 * n && Lapsed(sha256, c, calls) == n
    ensures forall call | call in calls :: call.DoProposeAmendment? || (if expires then call.DoExpire? else call.DoDecideAmendment?)
    ensures var now := Run(sha256, c, calls); now.state.Executing? && SameTerms(c, now) && now.amendments == c.amendments
  {
    hide Step, Lapses;
    calls := [];
    if n > 0 {
      var before := LapsesUnbounded(sha256, c, n - 1, expires);
      var now := Run(sha256, c, before);
      LapseCycle(sha256, now, expires);
      TwoMore(sha256, c, before, DoProposeAmendment(now.participants.0), GivingUp(now, expires));
      calls := before + [DoProposeAmendment(now.participants.0)] + [GivingUp(now, expires)];
    }
  }
}
