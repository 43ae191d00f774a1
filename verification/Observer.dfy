/**
 How a guardian derives the accepted bindings from a snapshot of the contracts
 (`contract_view` in `src/secure/guardian.rs`), and why it agrees with the engine that
 made them (`src/v2/contract.rs`). The snapshot is taken as already parsed.
 */
module Observers {
  import opened Wrappers
  import opened Secure
  import opened Canon
  import opened Binding
  import opened ContractSteps

  /** What a scan of the contracts has found so far. */
  datatype Seen = Seen(observed: seq<ContractView>, superseded: seq<string>, bootstrap: bool)

  type Scan = Result<Seen, SecureError>

  /** Ended before the first freeze: it still has a bootstrap notification to send. */
  predicate EndedUnfrozen(c: Fields) {
    (c.state.NoAgreement? || c.state.Withdrawn?) && c.revisions == []
  }

  predicate Negotiating(c: Fields) {
    c.state.Proposed? || c.state.Countered?
  }

  predicate ShowsRevisions(c: Fields) {
    c.state.Executing? || c.state.Verifying? || c.state.Amending? || c.state.Settled? || c.state.Rejected? || c.state.NoAgreement?
  }

  /** The first `k` revisions read: the last of all is current, the ones before it superseded. */
  function ReadRevisions(sha256: string -> string, id: string, rs: seq<Revision>, k: nat, seen: Seen): Scan
    requires k <= |rs|
  {
    if k == 0 then Success(seen)
    else
      var so :- ReadRevisions(sha256, id, rs, k - 1, seen);
      var r, previous := rs[k - 1], if k == 1 then 0 else rs[k - 2].number;
      if r.number <= previous || r.number > U64_MAX then Failure(ContractMismatch)
      else
        match RevisionDigest(sha256, id, r.number, r.content)
        case Failure(_) => Failure(ContractMismatch)
        case Success(computed) =>
          if Stripped(r.digest) != computed then Failure(ContractMismatch)
          else if k == |rs| then Success(so.(observed := so.observed + [ContractView.Frozen(id, r.number, r.content, computed)]))
          else Success(so.(superseded := so.superseded + [Bound(computed)]))
  }

  function See(sha256: string -> string, id: string, c: Fields, seen: Seen): Scan {
    var so := seen.(bootstrap := seen.bootstrap || Negotiating(c));
    if EndedUnfrozen(c) then Success(so.(bootstrap := true))
    else if c.state.Withdrawn? then Failure(ContractMismatch)
    else if !ShowsRevisions(c) then Success(so)
    else if c.revisions == [] then Failure(ContractMismatch)
    else ReadRevisions(sha256, id, c.revisions, |c.revisions|, so)
  }

  function SeeAll(sha256: string -> string, contracts: seq<Entry<Fields>>): Scan {
    if contracts == [] then Success(Seen([], [], false))
    else
      var so :- SeeAll(sha256, contracts[..|contracts| - 1]);
      var last := contracts[|contracts| - 1];
      See(sha256, last.key, last.item, so)
  }

  /** The single-contract shortcuts, and the general form. */
  function Shown(seen: Seen): ContractView {
    if seen.observed == [] && seen.superseded == [] then Bootstrap
    else if |seen.observed| == 1 && seen.superseded == [] && !seen.bootstrap then seen.observed[0]
    else Observed(seen.observed, seen.superseded, seen.bootstrap)
  }

  function View(sha256: string -> string, inSession: bool, contracts: seq<Entry<Fields>>): Result<ContractView, SecureError> {
    if !inSession then Success(Pending)
    else
      var seen :- SeeAll(sha256, contracts);
      Success(Shown(seen))
  }

  method ReadContract(sha256: string -> string, id: string, c: Fields, seen: Seen) returns (r: Scan)
    ensures r == See(sha256, id, c, seen)
  {
    hide RevisionDigest;
    var so := seen.(bootstrap := seen.bootstrap || c.state == Proposed || c.state == Countered);
    if (c.state == NoAgreement || c.state == Withdrawn) && c.revisions == [] {
      return Success(so.(bootstrap := true));
    }
    if c.state == Withdrawn {
      return Failure(ContractMismatch);
    }
    if c.state !in {Executing, Verifying, Amending, Settled, Rejected, NoAgreement} {
      return Success(so);
    }
    if c.revisions == [] {
      return Failure(ContractMismatch);
    }
    ghost var start := so;
    var previous := 0;
    for index := 0 to |c.revisions|
      invariant ReadRevisions(sha256, id, c.revisions, index, start) == Success(so)
      invariant previous == if index == 0 then 0 else c.revisions[index - 1].number
    {
      var revision := c.revisions[index];
      Failing(sha256, id, c.revisions, index + 1, start);
      if revision.number <= previous || revision.number > U64_MAX {
        return Failure(ContractMismatch);
      }
      previous := revision.number;
      var digest := RevisionDigest(sha256, id, revision.number, revision.content);
      if digest.Failure? || Stripped(revision.digest) != digest.value {
        return Failure(ContractMismatch);
      }
      if index + 1 == |c.revisions| {
        so := so.(observed := so.observed + [ContractView.Frozen(id, revision.number, revision.content, digest.value)]);
      } else {
        so := so.(superseded := so.superseded + [Bound(digest.value)]);
      }
    }
    r := Success(so);
  }

  /** What cannot be read at one revision cannot be read with those after it. */
  lemma {:induction false} Failing(sha256: string -> string, id: string, rs: seq<Revision>, k: nat, seen: Seen)
    requires k <= |rs|
    ensures ReadRevisions(sha256, id, rs, k, seen).Failure? ==>
              ReadRevisions(sha256, id, rs, |rs|, seen) == Failure(ContractMismatch)
    decreases |rs| - k
  {
    hide RevisionDigest;
    MismatchOnly(sha256, id, rs, k, seen);
    if k < |rs| {
      Failing(sha256, id, rs, k + 1, seen);
    }
  }

  lemma {:induction false} MismatchOnly(sha256: string -> string, id: string, rs: seq<Revision>, k: nat, seen: Seen)
    requires k <= |rs|
    ensures ReadRevisions(sha256, id, rs, k, seen).Failure? ==> ReadRevisions(sha256, id, rs, k, seen).error == ContractMismatch
  {
    hide RevisionDigest;
    if k > 0 {
      MismatchOnly(sha256, id, rs, k - 1, seen);
    }
  }

  lemma {:induction false} FailingScan(sha256: string -> string, contracts: seq<Entry<Fields>>, k: nat)
    requires k <= |contracts|
    ensures SeeAll(sha256, contracts[..k]).Failure? ==> SeeAll(sha256, contracts) == SeeAll(sha256, contracts[..k])
    decreases |contracts| - k
  {
    hide See;
    if k == |contracts| {
      assert contracts[..k] == contracts;
    } else {
      assert contracts[..k + 1][..k] == contracts[..k];
      FailingScan(sha256, contracts, k + 1);
    }
  }

  method DeriveView(sha256: string -> string, context: string, session: Option<string>, contracts: seq<Entry<Fields>>)
    returns (r: Result<ContractView, SecureError>)
    ensures r == View(sha256, session == Some(context), contracts)
  {
    hide See;
    if session != Some(context) {
      return Success(Pending);
    }
    var seen := Seen([], [], false);
    for i := 0 to |contracts|
      invariant SeeAll(sha256, contracts[..i]) == Success(seen)
    {
      assert contracts[..i + 1][..i] == contracts[..i];
      FailingScan(sha256, contracts, i + 1);
      seen :- ReadContract(sha256, contracts[i].key, contracts[i].item, seen);
    }
    assert contracts[..|contracts|] == contracts;
    if seen.observed == [] && seen.superseded == [] {
      return Success(Bootstrap);
    } else if |seen.observed| == 1 && seen.superseded == [] && !seen.bootstrap {
      return Success(seen.observed[0]);
    }
    return Success(Observed(seen.observed, seen.superseded, seen.bootstrap));
  }
}
