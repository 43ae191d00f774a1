/**
 What holds of every ledger that issuing and revoking can bring about (`src/v2/grant.rs`):
 authority only narrows along a chain, revoking only closes and issuing disturbs nothing.
 */
module GrantLaws {
  import opened Wrappers
  import opened Text
  import opened Verifications
  import opened Timestamps
  import opened Grants

  datatype Op = DoIssue(grant: Grant, at: string) | DoRevoke(id: string)

  /** No grant hands on more than its parent may. */
  ghost predicate Narrowing(l: Ledger) {
    forall id | id in l.grants && l.grants[id].parent.Some? && l.grants[id].parent.value in l.grants ::
      Narrows(l.grants[id], l.grants[l.grants[id].parent.value])
  }

  ghost predicate Narrows(g: Grant, parent: Grant) {
    parent.grantee == g.grantor && forall scope | Names(g, scope) :: MayPassOn(parent, scope)
  }

  ghost predicate Shaped(l: Ledger) {
    forall id | id in l.grants :: CheckShape(l.grants[id]).Success?
  }

  ghost predicate Lawful(l: Ledger) {
    Recorded(l) && Narrowing(l) && Shaped(l)
  }

  ghost function Step(l: Ledger, op: Op): Ledger
    requires Recorded(l)
  {
    match op
    case DoIssue(g, at) => if IssueOutcome(l, g, at).Success? && g.grantId !in l.grants then Issued(l, g) else l
    case DoRevoke(id) => if id in l.grants then Revoked(l, id) else l
  }

  lemma {:induction false} PassesOn(scopes: seq<Scope>, upstream: seq<Scope>)
    requires FirstRefused(scopes, upstream).None?
    ensures forall i | 0 <= i < |scopes| :: Upstream(upstream, scopes[i].name) == Some(true)
  {
    if scopes != [] {
      PassesOn(scopes[1..], upstream);
      forall i | 0 <= i < |scopes| ensures Upstream(upstream, scopes[i].name) == Some(true) {
        assert i > 0 ==> scopes[i] == scopes[1..][i - 1];
      }
    }
  }

  lemma {:induction false} UpstreamEntry(upstream: seq<Scope>, name: string)
    requires Upstream(upstream, name) == Some(true)
    ensures exists i :: 0 <= i < |upstream| && upstream[i] == Scope(name, true)
  {
    var n := |upstream| - 1;
    if upstream[n].name == name {
      assert upstream[n] == Scope(name, true);
    } else {
      UpstreamEntry(upstream[..n], name);
      var i :| 0 <= i < n && upstream[..n][i] == Scope(name, true);
      assert upstream[i] == Scope(name, true);
    }
  }

  lemma IssueNarrows(l: Ledger, g: Grant, at: string)
    requires Recorded(l) && IssueOutcome(l, g, at).Success? && g.grantId !in l.grants && g.parent.Some?
    ensures g.parent.value in l.grants && Narrows(g, l.grants[g.parent.value])
  {
    hide Recorded, OpenAt, CheckShape, FirstRefused, Upstream;
    var parent := l.grants[g.parent.value];
    PassesOn(g.scopes, parent.scopes);
    forall scope | Names(g, scope) ensures MayPassOn(parent, scope) {
      var i :| 0 <= i < |g.scopes| && g.scopes[i].name == scope;
      UpstreamEntry(parent.scopes, scope);
    }
  }

  lemma StepLawful(l: Ledger, op: Op)
    requires Lawful(l)
    ensures Lawful(Step(l, op))
  {
    hide OpenAt, CheckShape, FirstRefused, Narrows;
    match op
    case DoIssue(g, at) =>
      if IssueOutcome(l, g, at).Success? && g.grantId !in l.grants {
        IssuedRecorded(l, g, at);
        if g.parent.Some? {
          IssueNarrows(l, g, at);
        }
        IssuedNarrowing(l, g);
      }
    case DoRevoke(id) =>
  }

  lemma IssuedNarrowing(l: Ledger, g: Grant)
    requires Recorded(l) && Narrowing(l) && g.grantId !in l.grants
    requires g.parent.Some? ==> g.parent.value in l.grants && Narrows(g, l.grants[g.parent.value])
    ensures Narrowing(Issued(l, g))
  {
    hide Narrows;
    forall id | id in l.grants && l.grants[id].parent.Some? ensures l.grants[id].parent.value in l.grants {
      ParentEarlier(l, id);
    }
  }

  ghost function Run(l: Ledger, ops: seq<Op>): (r: Ledger)
    requires Lawful(l)
    ensures Lawful(r)
    decreases ops
  {
    if ops == [] then l
    else
      StepLawful(l, ops[0]);
      Run(Step(l, ops[0]), ops[1..])
  }

  lemma EmptyLawful()
    ensures Lawful(EMPTY)
  {
  }

  // ---------------------------------------------------------- attenuation

  /** A line of grants from one held by `agent` up to a charter, good for one scope throughout. */
  ghost predicate GoodChain(l: Ledger, agent: string, scope: string, at: string, chain: seq<string>) {
    && chain != [] && (forall i | 0 <= i < |chain| :: chain[i] in l.grants)
    && l.grants[chain[0]].grantee == agent && l.grants[chain[|chain| - 1]].parent.None?
    && (forall i | 0 <= i < |chain| :: OpenItself(l, chain[i], at) && Names(l.grants[chain[i]], scope))
    && forall i | 0 <= i < |chain| - 1 :: HandsOn(l.grants[chain[i + 1]], chain[i + 1], l.grants[chain[i]], scope)
  }

  /** `parent` is the grant `g` descends from, made to who made `g`, and may pass the scope on. */
  ghost predicate HandsOn(parent: Grant, parentId: string, g: Grant, scope: string) {
    g.parent == Some(parentId) && parent.grantee == g.grantor && MayPassOn(parent, scope)
  }

  lemma {:induction false} OpenGivesChain(l: Ledger, id: string, scope: string, at: string)
    requires Lawful(l) && id in l.grants && OpenAt(l, id, at) && Names(l.grants[id], scope)
    ensures GoodChain(l, l.grants[id].grantee, scope, at, Ancestry(l, id))
    decreases Place(l.order, id)
  {
    hide OpenAt, OpenItself, Shaped, Recorded;
    OpenStep(l, id, at);
    var g := l.grants[id];
    if g.parent.Some? {
      ParentEarlier(l, id);
      var p := g.parent.value;
      var parent := l.grants[p];
      assert Narrows(g, parent);
      assert Names(parent, scope) by {
        var i :| 0 <= i < |parent.scopes| && parent.scopes[i] == Scope(scope, true);
      }
      OpenGivesChain(l, p, scope, at);
      ChainCons(l, id, scope, at, Ancestry(l, p));
    }
  }

  lemma ChainCons(l: Ledger, id: string, scope: string, at: string, chain: seq<string>)
    requires id in l.grants && OpenItself(l, id, at) && Names(l.grants[id], scope)
    requires l.grants[id].parent.Some? && l.grants[id].parent.value in l.grants
    requires var p := l.grants[id].parent.value;
             GoodChain(l, l.grants[p].grantee, scope, at, chain) && chain[0] == p
             && HandsOn(l.grants[p], p, l.grants[id], scope)
    ensures GoodChain(l, l.grants[id].grantee, scope, at, [id] + chain)
  {
    hide OpenItself, Names, HandsOn;
    var longer := [id] + chain;
    assert forall i | 1 <= i < |longer| :: longer[i] == chain[i - 1];
  }

  lemma {:induction false} ChainGivesOpen(l: Ledger, agent: string, scope: string, at: string, chain: seq<string>)
    requires Lawful(l) && GoodChain(l, agent, scope, at, chain)
    ensures OpenAt(l, chain[0], at) && Names(l.grants[chain[0]], scope)
    decreases |chain|
  {
    hide OpenAt, OpenItself, Lawful;
    OpenStep(l, chain[0], at) by { assert Recorded(l) by { LawfulRecorded(l); } }
    if |chain| > 1 {
      var rest := chain[1..];
      assert HandsOn(l.grants[chain[1]], chain[1], l.grants[chain[0]], scope);
      assert forall i | 0 <= i < |rest| :: rest[i] == chain[i + 1];
      ChainGivesOpen(l, l.grants[chain[1]].grantee, scope, at, rest);
    }
  }

  lemma LawfulRecorded(l: Ledger)
    requires Lawful(l)
    ensures Recorded(l)
  {
  }

  /**
   Authority attenuates. In every ledger that issues and revocations bring about, an agent is
   covered for a scope exactly when some finite line of grants leads from a charter down to it,
   each made by who holds the one before, all unrevoked and in their windows, with the scope
   in every one of them and free to be passed on in all but the last.
   */
  lemma AuthorityAttenuates(ops: seq<Op>, agent: string, scope: string, at: string)
    ensures Lawful(EMPTY)
    ensures var l := Run(EMPTY, ops);
            Covers(l, agent, scope, at) <==> ValidTimestamp(at) && exists chain :: GoodChain(l, agent, scope, at, chain)
  {
    hide OpenAt, GoodChain, Names, ValidTimestamp;
    EmptyLawful();
    var l := Run(EMPTY, ops);
    if Covers(l, agent, scope, at) {
      var id :| Holds(l, id, agent, at) && Names(l.grants[id], scope);
      OpenGivesChain(l, id, scope, at);
    }
    if ValidTimestamp(at) {
      if chain :| GoodChain(l, agent, scope, at, chain) {
        ChainGivesOpen(l, agent, scope, at, chain);
        ChainLeaf(l, agent, scope, at, chain);
        assert Holds(l, chain[0], agent, at);
      }
    }
  }

  lemma ChainLeaf(l: Ledger, agent: string, scope: string, at: string, chain: seq<string>)
    requires GoodChain(l, agent, scope, at, chain)
    ensures chain != [] && chain[0] in l.grants && l.grants[chain[0]].grantee == agent
  {
  }

  // ------------------------------------------- what issuing and revoking do

  lemma {:induction false} IssueKeepsAncestry(l: Ledger, g: Grant, id: string)
    requires Recorded(l) && Recorded(Issued(l, g)) && g.grantId !in l.grants && id in l.grants
    ensures Ancestry(Issued(l, g), id) == Ancestry(l, id)
    decreases Place(l.order, id)
  {
    hide Recorded;
    if l.grants[id].parent.Some? {
      ParentEarlier(l, id);
      IssueKeepsAncestry(l, g, l.grants[id].parent.value);
    }
  }

  lemma {:induction false} RevokeKeepsAncestry(l: Ledger, gone: string, id: string)
    requires Recorded(l) && Recorded(Revoked(l, gone)) && id in l.grants
    ensures Ancestry(Revoked(l, gone), id) == Ancestry(l, id)
    decreases Place(l.order, id)
  {
    hide Recorded;
    if l.grants[id].parent.Some? {
      ParentEarlier(l, id);
      RevokeKeepsAncestry(l, gone, l.grants[id].parent.value);
    }
  }

  /** Issuing a grant opens and closes no other. */
  lemma IssueDisturbsNothing(l: Ledger, g: Grant, at: string, id: string, t: string)
    requires Lawful(l) && IssueOutcome(l, g, at).Success? && g.grantId !in l.grants && id in l.grants
    ensures Recorded(Issued(l, g)) && (OpenAt(Issued(l, g), id, t) <==> OpenAt(l, id, t))
  {
    hide IssueOutcome, WindowOpen;
    IssuedRecorded(l, g, at);
    IssueKeepsAncestry(l, g, id);
    forall x | x in Ancestry(l, id) ensures OpenItself(Issued(l, g), x, t) == OpenItself(l, x, t) {
    }
  }

  lemma RevokedRecorded(l: Ledger, gone: string)
    requires Lawful(l) && gone in l.grants
    ensures Recorded(l) && Recorded(Revoked(l, gone))
  {
    hide CheckShape, Narrows;
    var l' := Revoked(l, gone);
    assert forall i | 0 <= i < |l.order| && l'.grants[l'.order[i]].parent.Some? ::
      Precedes(l.order, i, l.grants[l.order[i]].parent.value);
  }

  /** Revoking closes exactly the grant and its descendants. */
  lemma RevokeClosesDescendants(l: Ledger, gone: string, id: string, t: string)
    requires Lawful(l) && gone in l.grants && id in l.grants
    ensures Recorded(Revoked(l, gone))
    ensures OpenAt(Revoked(l, gone), id, t) <==> OpenAt(l, id, t) && gone !in Ancestry(l, id)
  {
    hide WindowOpen, Recorded, Lawful, Ancestry;
    RevokedRecorded(l, gone);
    RevokeKeepsAncestry(l, gone, id);
    forall x | x in Ancestry(l, id)
      ensures OpenItself(Revoked(l, gone), x, t) == (OpenItself(l, x, t) && x != gone)
    {
    }
  }

  /** Nothing recorded is ever replaced, and what was revoked stays revoked. */
  lemma {:induction false} RecordStands(l: Ledger, ops: seq<Op>, id: string)
    requires Lawful(l) && id in l.grants
    ensures var l' := Run(l, ops);
            id in l'.grants && l'.grants[id] == l.grants[id] && Ancestry(l', id) == Ancestry(l, id) && l.revoked <= l'.revoked
    decreases ops
  {
    hide Recorded, IssueOutcome, Narrowing, Shaped;
    if ops != [] {
      StepLawful(l, ops[0]);
      match ops[0] {
        case DoIssue(g, at) =>
          if IssueOutcome(l, g, at).Success? && g.grantId !in l.grants {
            IssueKeepsAncestry(l, g, id);
          }
        case DoRevoke(gone) =>
          if gone in l.grants {
            RevokeKeepsAncestry(l, gone, id);
          }
      }
      RecordStands(Step(l, ops[0]), ops[1..], id);
    }
  }

  /** Once an ancestor is revoked a grant is closed at all times, whatever happens later. */
  lemma ClosedForGood(l: Ledger, ops: seq<Op>, id: string, gone: string, t: string)
    requires Lawful(l) && id in l.grants && gone in Ancestry(l, id) && gone in l.revoked
    ensures id in Run(l, ops).grants && !OpenAt(Run(l, ops), id, t)
  {
    hide Recorded, Narrowing, Shaped, WindowOpen, Ancestry;
    RecordStands(l, ops, id);
    var l' := Run(l, ops);
    assert gone in Ancestry(l', id);
    assert !OpenItself(l', gone, t);
  }

  // ------------------------------------------- which grants can be issued

  /** The tag and at least twelve lower-case hexadecimal digits. */
  ghost predicate GrantId(id: string) {
    exists hex :: |hex| >= 12 && AllHex(hex) && id == "g-" + hex
  }

  ghost predicate GoodNames(g: Grant) {
    && (AgentUrn(g.grantor) || (g.parent.None? && g.grantor == "deployment")) && AgentUrn(g.grantee)
    && (g.peer.Some? ==> AgentUrn(g.peer.value))
  }

  ghost predicate GoodWindow(g: Grant) {
    ValidTimestamp(g.validFrom) && ValidTimestamp(g.validUntil) && InstantOf(g.validFrom) <= InstantOf(g.validUntil)
  }

  /** A grant is in shape exactly when its names are in order and its window does not end before it begins. */
  lemma ShapeExact(g: Grant)
    ensures CheckShape(g).Success? <==> GrantId(g.grantId) && GoodNames(g) && GoodWindow(g)
  {
    hide AgentUrn, ValidTimestamp, InstantOf, TextBefore;
    GrantIdShape(g.grantId);
    if ValidTimestamp(g.validFrom) && ValidTimestamp(g.validUntil) {
      TextOrderIsTimeOrder(g.validUntil, g.validFrom);
    }
  }

  lemma GrantIdShape(id: string)
    ensures HexId("g-", id) <==> GrantId(id)
  {
    if "g-" <= id {
      assert id == "g-" + id[2..];
    }
    forall hex | id == "g-" + hex ensures id[2..] == hex {
    }
  }

  /** The last entry for this scope lets it be passed on. */
  predicate LetsPass(scopes: seq<Scope>, name: string) {
    exists i | 0 <= i < |scopes| :: scopes[i] == Scope(name, true) && forall j | i < j < |scopes| :: scopes[j].name != name
  }

  lemma {:induction false} UpstreamIsLast(scopes: seq<Scope>, name: string)
    ensures Upstream(scopes, name) == Some(true) <==> LetsPass(scopes, name)
  {
    if scopes != [] {
      var n := |scopes| - 1;
      UpstreamIsLast(scopes[..n], name);
      if scopes[n].name != name {
        if LetsPass(scopes, name) {
          var i :| 0 <= i < |scopes| && scopes[i] == Scope(name, true) && forall j | i < j < |scopes| :: scopes[j].name != name;
          assert scopes[..n][i] == Scope(name, true);
        }
        if LetsPass(scopes[..n], name) {
          var i :| 0 <= i < n && scopes[..n][i] == Scope(name, true) && forall j | i < j < n :: scopes[..n][j].name != name;
          assert forall j | i < j < n :: scopes[j] == scopes[..n][j];
          assert scopes[i] == Scope(name, true);
        }
      } else {
        assert LetsPass(scopes, name) ==> scopes[n] == Scope(name, true);
      }
    }
  }

  /** The scope at `i` is the first that may not be passed on. */
  ghost predicate RefusedAt(scopes: seq<Scope>, upstream: seq<Scope>, i: int) {
    0 <= i < |scopes| && !LetsPass(upstream, scopes[i].name) && forall j | 0 <= j < i :: LetsPass(upstream, scopes[j].name)
  }

  lemma {:induction false} FirstRefusedIs(scopes: seq<Scope>, upstream: seq<Scope>)
    ensures match FirstRefused(scopes, upstream)
            case None => forall i | 0 <= i < |scopes| :: LetsPass(upstream, scopes[i].name)
            case Some(name) => exists i :: RefusedAt(scopes, upstream, i) && scopes[i].name == name
  {
    hide LetsPass, Upstream;
    if scopes != [] {
      UpstreamIsLast(upstream, scopes[0].name);
      var rest := scopes[1..];
      FirstRefusedIs(rest, upstream);
      assert forall i | 0 < i < |scopes| :: scopes[i] == rest[i - 1];
      if Upstream(upstream, scopes[0].name) != Some(true) {
        assert RefusedAt(scopes, upstream, 0);
      } else if FirstRefused(rest, upstream).Some? {
        var i :| RefusedAt(rest, upstream, i) && rest[i].name == FirstRefused(rest, upstream).value;
        assert RefusedAt(scopes, upstream, i + 1);
      }
    }
  }

  /** The parent is on record and open, its holder is the grantor, and each scope may be passed on. */
  ghost predicate ParentAllows(l: Ledger, g: Grant, at: string)
    requires Recorded(l) && g.parent.Some?
  {
    var p := g.parent.value;
    && p in l.grants && OpenAt(l, p, at) && l.grants[p].grantee == g.grantor
    && forall i | 0 <= i < |g.scopes| :: LetsPass(l.grants[p].scopes, g.scopes[i].name)
  }

  /**
   Which grants are issued: a grant on record only if it comes again word for word, and a new one
   exactly when it is in shape, the time is valid, and it is a charter or its parent allows it.
   */
  lemma IssueExact(l: Ledger, g: Grant, at: string)
    requires Recorded(l)
    ensures IssueOutcome(l, g, at).Success?
            <==> && GrantId(g.grantId) && GoodNames(g) && GoodWindow(g) && ValidTimestamp(at)
                 && if g.grantId in l.grants then l.grants[g.grantId] == g else g.parent.Some? ==> ParentAllows(l, g, at)
    ensures CheckShape(g).Success? && ValidTimestamp(at) && g.grantId in l.grants && l.grants[g.grantId] != g
            ==> IssueOutcome(l, g, at) == Failure(DuplicateGrant(g.grantId))
  {
    hide Recorded, OpenAt, CheckShape, FirstRefused, LetsPass, ValidTimestamp, GoodNames, GoodWindow;
    ShapeExact(g);
    if g.parent.Some? && g.parent.value in l.grants {
      FirstRefusedIs(g.scopes, l.grants[g.parent.value].scopes);
    }
  }

  /** Why a new grant in shape is refused by its parent. */
  lemma IssueRefusals(l: Ledger, g: Grant, at: string)
    requires Recorded(l) && CheckShape(g).Success? && ValidTimestamp(at) && g.grantId !in l.grants && g.parent.Some?
    ensures var p := g.parent.value;
            var r := IssueOutcome(l, g, at);
            if p !in l.grants then r == Failure(UnknownGrant(p))
            else if !OpenAt(l, p, at) then r == Failure(ClosedGrant(p))
            else if l.grants[p].grantee != g.grantor then r == Failure(ChainMismatch(g.grantor, l.grants[p].grantee))
            else forall i | RefusedAt(g.scopes, l.grants[p].scopes, i) :: r == Failure(NotDelegable(g.scopes[i].name))
  {
    hide Recorded, OpenAt, CheckShape, FirstRefused, LetsPass, ValidTimestamp;
    if g.parent.value in l.grants {
      var upstream := l.grants[g.parent.value].scopes;
      FirstRefusedIs(g.scopes, upstream);
      forall i | RefusedAt(g.scopes, upstream, i) ensures FirstRefused(g.scopes, upstream) == Some(g.scopes[i].name) {
        var k :| RefusedAt(g.scopes, upstream, k) && Some(g.scopes[k].name) == FirstRefused(g.scopes, upstream);
        assert i == k;
      }
    }
  }

  /** A grant by itself is open at the instants of its window, both ends included, while it is not revoked. */
  lemma OpenItselfExact(l: Ledger, id: string, at: string)
    requires Shaped(l) && id in l.grants && ValidTimestamp(at)
    ensures ValidTimestamp(l.grants[id].validFrom) && ValidTimestamp(l.grants[id].validUntil)
    ensures OpenItself(l, id, at)
            <==> id !in l.revoked && InstantOf(l.grants[id].validFrom) <= InstantOf(at) <= InstantOf(l.grants[id].validUntil)
  {
    hide ValidTimestamp, InstantOf, TextBefore, GoodNames, AgentUrn;
    var g := l.grants[id];
    assert CheckShape(g).Success?;
    ShapeExact(g);
    TextOrderIsTimeOrder(at, g.validFrom);
    TextOrderIsTimeOrder(g.validUntil, at);
    UpToTotal(g.validFrom, at);
    UpToTotal(at, g.validUntil);
  }
}
