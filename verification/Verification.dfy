/** Verdict records and their shape check (`src/v2/verification.rs`). */
module Verifications {
  import opened Wrappers
  import opened Text

  datatype Verdict = Accept | Rework(scope: string) | Reject

  datatype CheckRun = CheckRun(name: string, passed: bool, detail: string)

  datatype Verification = Verification(
    verificationId: string, verifier: string, contractId: string, againstRevision: string,
    artifacts: seq<string>, evidence: seq<string>, checks: seq<CheckRun>, verdict: Verdict,
    reasons: seq<string>, attests: seq<string>)

  datatype VerificationError = BadId(found: string) | BadVerifier | BadRevision(found: string) | SignalsAreNotEvidence | FailedChecks

  const AGENT_PREFIX := "urn:hacp:agent:"

  predicate LocalNameChar(c: char) {
    'a' <= c <= 'z' || '0' <= c <= '9' || c in "._-"
  }

  /** Names of agents are wider here than on secure envelopes, and bounded. */
  predicate AgentUrn(s: string) {
    AGENT_PREFIX <= s
    && var name := s[|AGENT_PREFIX|..];
       1 <= |name| <= 64 && forall i | 0 <= i < |name| :: LocalNameChar(name[i])
  }

  predicate DigestShape(s: string) {
    |s| == 64 && AllHex(s)
  }

  /** An acceptance needs something to accept and checks, all of them passed. */
  function Validate(v: Verification): Result<Unit, VerificationError> {
    if !("v-" <= v.verificationId && |v.verificationId| - 2 >= 12 && AllHex(v.verificationId[2..])) then
      Failure(BadId(v.verificationId))
    else if !AgentUrn(v.verifier) then Failure(BadVerifier)
    else if !DigestShape(v.againstRevision) then Failure(BadRevision(v.againstRevision))
    else if v.verdict.Accept? && (v.artifacts == [] || forall i | 0 <= i < |v.checks| :: !v.checks[i].passed) then
      Failure(SignalsAreNotEvidence)
    else if v.verdict.Accept? && exists i | 0 <= i < |v.checks| :: !v.checks[i].passed then Failure(FailedChecks)
    else Success(Unit)
  }

  /** Evidence over signals: a valid acceptance names artifacts and rests on passed checks alone. */
  lemma AcceptNeedsEvidence(v: Verification)
    ensures Validate(v).Success? && v.verdict.Accept? ==>
              v.artifacts != [] && v.checks != [] && forall i | 0 <= i < |v.checks| :: v.checks[i].passed
  {
  }

  /** An agent's name: one to sixty-four letters, digits, dots, underscores and dashes behind the scheme. */
  lemma AgentUrnExact(s: string)
    ensures AgentUrn(s)
            <==> exists name :: s == "urn:hacp:agent:" + name && 1 <= |name| <= 64
                   && forall c | c in name :: 'a' <= c <= 'z' || '0' <= c <= '9' || c == '.' || c == '_' || c == '-'
  {
    if AgentUrn(s) {
      assert s == "urn:hacp:agent:" + s[15..];
    }
    forall name | s == "urn:hacp:agent:" + name ensures s[15..] == name {
    }
    if name :| s == "urn:hacp:agent:" + name && 1 <= |name| <= 64
               && forall c | c in name :: 'a' <= c <= 'z' || '0' <= c <= '9' || c == '.' || c == '_' || c == '-' {
      forall i | 0 <= i < |name| ensures LocalNameChar(name[i]) {
        assert name[i] in name;
      }
    }
  }

  /** The text after the tag is at least twelve lower-case hexadecimal digits. */
  ghost predicate RecordId(id: string) {
    exists hex :: |hex| >= 12 && AllHex(hex) && id == "v-" + hex
  }

  /**
   Which records are in order, and what is wrong with the others: the name of the record, of
   the verifier and of the revision come first; then an acceptance needs artifacts and a check
   that passed, and no check that failed. A rework or a rejection needs no evidence.
   */
  lemma ValidateExact(v: Verification)
    ensures var well := RecordId(v.verificationId) && AgentUrn(v.verifier) && |v.againstRevision| == 64 && AllHex(v.againstRevision);
            var accepts := v.verdict.Accept?;
            && (Validate(v) == Failure(BadId(v.verificationId)) <==> !RecordId(v.verificationId))
            && (Validate(v) == Failure(BadVerifier) <==> RecordId(v.verificationId) && !AgentUrn(v.verifier))
            && (Validate(v) == Failure(SignalsAreNotEvidence)
                <==> well && accepts && !(v.artifacts != [] && exists i :: 0 <= i < |v.checks| && v.checks[i].passed))
            && (Validate(v) == Failure(FailedChecks)
                <==> well && accepts && v.artifacts != [] && (exists i :: 0 <= i < |v.checks| && v.checks[i].passed)
                     && exists i :: 0 <= i < |v.checks| && !v.checks[i].passed)
            && (Validate(v).Success?
                <==> well && (accepts ==> v.artifacts != [] && v.checks != [] && forall i | 0 <= i < |v.checks| :: v.checks[i].passed))
            && (Validate(v).Failure? && RecordId(v.verificationId) && AgentUrn(v.verifier) && !well
                ==> Validate(v) == Failure(BadRevision(v.againstRevision)))
  {
    hide AgentUrn;
    var id := v.verificationId;
    if "v-" <= id {
      assert id == "v-" + id[2..];
    }
    forall hex | id == "v-" + hex ensures id[2..] == hex {
    }
    if v.checks != [] {
      assert v.checks[0].passed || !v.checks[0].passed;
    }
  }
}
