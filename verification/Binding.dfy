/**
 What a guardian may accept as a message's contract binding: the observed state of
 the contracts and the check against it (`ContractView` in `src/secure/transport.rs`).
 */
module Binding {
  import opened Wrappers
  import opened Text
  import opened Secure
  import opened Canon

  datatype ContractView =
    | Bootstrap
    | Pending
    | Observed(current: seq<ContractView>, superseded: seq<string>, bootstrap: bool)
    | Frozen(contractId: string, revision: nat, content: Json, digest: string)

  type Checked = Result<Unit, SecureError>

  const OK: Checked := Success(Unit)

  /** What a revision digest is taken over. */
  function RevisionJson(contractId: string, number: nat, content: Json): Json {
    Object([Entry("contract_id", String(contractId)), Entry("revision", Number(Decimal(number))),
            Entry("content", content)])
  }

  function RevisionDigest(sha256: string -> string, contractId: string, number: nat, content: Json)
    : Result<string, CanonError>
  {
    DigestOf(sha256, RevisionJson(contractId, number, content))
  }

  const SHA_PREFIX := "sha256:"

  function Stripped(digest: string): string {
    if SHA_PREFIX <= digest then digest[|SHA_PREFIX|..] else digest
  }

  function Bound(digest: string): string {
    SHA_PREFIX + digest
  }

  /** A frozen view is in order when its digest is the digest of what it shows. */
  predicate Genuine(sha256: string -> string, v: ContractView) {
    v.Frozen? && RevisionDigest(sha256, v.contractId, v.revision, v.content) == Success(Stripped(v.digest))
  }

  /** The binding check. Whatever is malformed answers as a mismatch, so order does not show. */
  function Check(sha256: string -> string, view: ContractView, claimed: string): Checked {
    match view
    case Bootstrap => if claimed == "" then OK else Failure(ContractPending)
    case Pending => if claimed == "" then OK else Failure(ContractPending)
    case Frozen(_, _, _, digest) =>
      if Genuine(sha256, view) && claimed == Bound(Stripped(digest)) then OK else Failure(ContractMismatch)
    case Observed(current, superseded, bootstrap) =>
      if exists i | 0 <= i < |current| :: !Genuine(sha256, current[i]) then Failure(ContractMismatch)
      else if claimed in superseded then Failure(ContractMismatch)
      else if exists i | 0 <= i < |current| :: claimed == Bound(Stripped(current[i].digest)) then OK
      else if bootstrap || current == [] then if claimed == "" then OK else Failure(ContractPending)
      else Failure(ContractMismatch)
  }

  /** A failure that a later observation cannot repair. */
  predicate Contradicts(sha256: string -> string, view: ContractView, claimed: string) {
    Check(sha256, view, claimed).Failure? && Check(sha256, view, claimed) != Failure(ContractPending)
  }

  method CheckBinding(sha256: string -> string, view: ContractView, claimed: string) returns (r: Checked)
    ensures r == Check(sha256, view, claimed)
    decreases view
  {
    hide RevisionDigest;
    match view
    case Bootstrap =>
      return if claimed == "" then OK else Failure(ContractPending);
    case Pending =>
      return if claimed == "" then OK else Failure(ContractPending);
    case Frozen(contractId, revision, content, digest) =>
      var computed := RevisionDigest(sha256, contractId, revision, content);
      if computed.Failure? || Stripped(digest) != computed.value || claimed != Bound(computed.value) {
        return Failure(ContractMismatch);
      }
      return OK;
    case Observed(current, superseded, bootstrap) =>
      var matched := false;
      for i := 0 to |current|
        invariant forall k | 0 <= k < i :: Genuine(sha256, current[k])
        invariant matched <==> exists k | 0 <= k < i :: claimed == Bound(Stripped(current[k].digest))
      {
        if !current[i].Frozen? {
          return Failure(ContractMismatch);
        }
        var binding := Bound(Stripped(current[i].digest));
        var checked := CheckBinding(sha256, current[i], binding);
        if checked.Failure? {
          return checked;
        }
        matched := matched || binding == claimed;
      }
      if claimed in superseded {
        return Failure(ContractMismatch);
      }
      if matched || (claimed == "" && (bootstrap || current == [])) {
        return OK;
      } else if claimed != "" && (bootstrap || current == []) {
        return Failure(ContractPending);
      }
      return Failure(ContractMismatch);
  }

  /** The two shortcuts answer every claim as the general form does. */
  lemma ShortcutsAgree(sha256: string -> string, bootstrap: bool, frozen: ContractView, claimed: string)
    ensures Check(sha256, Bootstrap, claimed) == Check(sha256, Observed([], [], bootstrap), claimed)
    ensures frozen.Frozen? ==> Check(sha256, frozen, claimed) == Check(sha256, Observed([frozen], [], false), claimed)
  {
    hide RevisionDigest;
    var general := Observed([frozen], [], false);
    assert general.current[0] == frozen;
  }

  // -------------------------------------------------- what a check amounts to

  /** The frozen contracts a view shows. */
  function ShownBy(view: ContractView): seq<ContractView> {
    match view
    case Frozen(_, _, _, _) => [view]
    case Observed(current, _, _) => current
    case _ => []
  }

  /** The view shows this frozen contract in order, and the claim is its digest. */
  ghost predicate CarriedBy(sha256: string -> string, f: ContractView, claimed: string) {
    f.Frozen? && Genuine(sha256, f)
    && claimed == "sha256:" + RevisionDigest(sha256, f.contractId, f.revision, f.content).value
  }

  ghost predicate Carried(sha256: string -> string, view: ContractView, claimed: string) {
    exists f :: f in ShownBy(view) && CarriedBy(sha256, f, claimed)
  }

  ghost predicate InOrder(sha256: string -> string, view: ContractView) {
    forall f | f in ShownBy(view) :: Genuine(sha256, f)
  }

  predicate SupersededIn(view: ContractView, claimed: string) {
    view.Observed? && claimed in view.superseded
  }

  /** The view leaves room for a contract that is not there yet. */
  predicate Awaits(view: ContractView) {
    view.Bootstrap? || view.Pending? || (view.Observed? && (view.bootstrap || view.current == []))
  }

  /**
   Under any view: a claim is accepted exactly when what is shown is in order, the claim is
   not superseded, and it is carried by a frozen contract that is shown, or is empty while a
   contract may still come; while one may come any other claim has to wait; the rest is wrong.
   */
  lemma CheckExact(sha256: string -> string, view: ContractView, claimed: string)
    ensures var standing := InOrder(sha256, view) && !SupersededIn(view, claimed);
            && (Check(sha256, view, claimed) == OK
                <==> standing && (Carried(sha256, view, claimed) || (claimed == "" && Awaits(view))))
            && (Check(sha256, view, claimed) == Failure(ContractPending)
                <==> standing && !Carried(sha256, view, claimed) && claimed != "" && Awaits(view))
            && (Check(sha256, view, claimed) in {OK, Failure(ContractPending), Failure(ContractMismatch)})
  {
    hide RevisionDigest;
    forall f ensures CarriedBy(sha256, f, claimed) <==> Genuine(sha256, f) && claimed == Bound(Stripped(f.digest)) {
    }
    if view.Frozen? {
      assert view in ShownBy(view);
    }
    if view.Observed? {
      forall i | 0 <= i < |view.current| ensures view.current[i] in ShownBy(view) {
      }
    }
  }

  /** Nothing but the empty binding is accepted without a frozen contract that carries it. */
  lemma AcceptedIsShown(sha256: string -> string, view: ContractView, claimed: string)
    requires Check(sha256, view, claimed) == OK && claimed != ""
    ensures exists f :: f in ShownBy(view) && CarriedBy(sha256, f, claimed)
  {
    hide RevisionDigest, Check;
    CheckExact(sha256, view, claimed);
  }

  // ---------------------------------------------------------- revision objects

  /** Content that has a canonical form keeps having one inside the revision object. */
  lemma RevisionCanonical(sha256: string -> string, contractId: string, number: nat, content: Json)
    ensures RevisionDigest(sha256, contractId, number, content).Success? <==> IntegersOnly(content)
  {
    hide Canonical;
    var v := RevisionJson(contractId, number, content);
    CanonicalIffIntegersOnly(v, "$");
    var ms := v.members;
    assert ms[0].item == String(contractId) && ms[1].item == Number(Decimal(number)) && ms[2].item == content;
    assert IntegersOnly(ms[0].item) && IntegersOnly(ms[1].item);
    assert IntegersOnly(v) <==> IntegersOnly(content);
  }
}
