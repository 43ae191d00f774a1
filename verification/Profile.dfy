/** Standing grants between siblings (`HiveProfile` in `src/v2/profile.rs`). */
module Profiles {
  import opened Wrappers
  import opened Text
  import opened Verifications
  import opened Timestamps
  import opened OrgCharts
  import opened Grants
  import opened GrantLaws
  import opened Permits

  predicate ReportsTo(org: OrgChart, child: string, supervisor: string) {
    child in org.parentOf && org.parentOf[child] == supervisor
  }

  function SiblingGrant(
    supervisor: string, child: string, peer: string, taskClass: string, grantId: string,
    from: string, until: string, parent: string): Grant
  {
    Grant(grantId, supervisor, child, [Scope(CrossBranch(taskClass), false)], from, until, Some(parent), Some(peer))
  }

  /** A grant the supervisor holds and may pass the scope on from. */
  ghost predicate Delegable(l: Ledger, id: string, supervisor: string, scope: string, at: string)
    requires Recorded(l)
  {
    Holds(l, id, supervisor, at) && MayPassOn(l.grants[id], scope)
  }

  ghost predicate IsFirstDelegable(l: Ledger, id: string, supervisor: string, scope: string, at: string)
    requires Recorded(l)
  {
    Delegable(l, id, supervisor, scope, at) && forall x | Delegable(l, x, supervisor, scope, at) :: UpTo(id, x)
  }

  /**
   Issues a grant to `child` for collaborating with its sibling `peer`, under the first grant
   of the supervisor that allows it; the ledger itself has the last word.
   */
  method AuthorizeSiblings(
      ledger: GrantLedger, org: OrgChart, supervisor: string, child: string, peer: string, taskClass: string,
      grantId: string, from: string, until: string) returns (r: Result<Unit, GrantError>)
    requires ledger.Valid()
    modifies ledger
    ensures ledger.Valid()
    ensures r.Success? <==>
              SharesParent(org, child, peer) && org.parentOf[child] == supervisor && ValidChart(org)
              && exists parent :: IsFirstDelegable(old(ledger.State()), parent, supervisor, CrossBranch(taskClass), from)
                   && IssueOutcome(old(ledger.State()),
                                   SiblingGrant(supervisor, child, peer, taskClass, grantId, from, until, parent), from).Success?
    ensures r.Success? ==>
              exists parent :: IsFirstDelegable(old(ledger.State()), parent, supervisor, CrossBranch(taskClass), from)
                && var g := SiblingGrant(supervisor, child, peer, taskClass, grantId, from, until, parent);
                   grantId in ledger.grants && ledger.grants[grantId] == g
                   && ledger.State() == if grantId in old(ledger.grants) then old(ledger.State()) else Issued(old(ledger.State()), g)
    ensures r.Failure? ==> ledger.State() == old(ledger.State())
    ensures r.Failure? ==>
              if !(SharesParent(org, child, peer) && org.parentOf[child] == supervisor) then r.error == ChainMismatch(supervisor, peer)
              else if !ValidChart(org) then r.error == ChartOutcome(org).error
              else if forall x :: !Delegable(old(ledger.State()), x, supervisor, CrossBranch(taskClass), from) then
                r.error == NotDelegable(CrossBranch(taskClass))
              else
                exists parent :: IsFirstDelegable(old(ledger.State()), parent, supervisor, CrossBranch(taskClass), from)
                  && r == IssueOutcome(old(ledger.State()),
                                       SiblingGrant(supervisor, child, peer, taskClass, grantId, from, until, parent), from)
  {
    hide Recorded, OpenAt, ValidTimestamp, UpTo, ValidChart, ChartOutcome, CheckShape, FirstRefused, Upstream;
    if child == peer || !ReportsTo(org, child, supervisor) || !ReportsTo(org, peer, supervisor) {
      return Failure(ChainMismatch(supervisor, peer));
    }
    var checked := ValidateChart(org);
    if checked.Failure? {
      return Failure(checked.error);
    }
    var scope := CrossBranch(taskClass);
    var held := ledger.HeldBy(supervisor, from);
    var able := set id | id in held && MayPassOn(ledger.grants[id], scope);
    ghost var l := ledger.State();
    assert forall x :: x in able <==> Delegable(l, x, supervisor, scope, from);
    if able == {} {
      return Failure(NotDelegable(scope));
    }
    ghost var first := FirstOf(able);
    var parent :| parent in able && forall x | x in able :: UpTo(parent, x);
    assert IsFirstDelegable(l, parent, supervisor, scope, from);
    OneFirstDelegable(l, supervisor, scope, from);
    r := ledger.Issue(SiblingGrant(supervisor, child, peer, taskClass, grantId, from, until, parent), from);
  }

  lemma OneFirstDelegable(l: Ledger, supervisor: string, scope: string, at: string)
    requires Recorded(l)
    ensures forall a, b | IsFirstDelegable(l, a, supervisor, scope, at) && IsFirstDelegable(l, b, supervisor, scope, at) :: a == b
  {
    hide Recorded, Delegable, UpTo;
    forall a, b | IsFirstDelegable(l, a, supervisor, scope, at) && IsFirstDelegable(l, b, supervisor, scope, at) ensures a == b {
      UpToTotal(a, b);
    }
  }

  /** Grants above this one that are restricted to a peer are restricted to this peer. */
  ghost predicate AboveAllows(l: Ledger, parent: string, peer: string)
    requires Recorded(l) && parent in l.grants
  {
    forall x | x in Ancestry(l, parent) && l.grants[x].peer.Some? :: l.grants[x].peer.value == peer
  }

  /**
   A sibling grant just issued is grounds for a permit between the two siblings exactly when
   no grant above it is restricted to somebody else: issuing does not look at that.
   */
  lemma SiblingGrantGrounds(
      org: OrgChart, l: Ledger, supervisor: string, child: string, peer: string, taskClass: string,
      grantId: string, from: string, until: string, parent: string, q: CollaborationRequest)
    requires Lawful(l) && ValidChart(org) && ReportsTo(org, child, supervisor) && ReportsTo(org, peer, supervisor)
    requires var g := SiblingGrant(supervisor, child, peer, taskClass, grantId, from, until, parent);
             IssueOutcome(l, g, from).Success? && grantId !in l.grants
    requires ValidRequest(q) && q.requester == child && q.peer == peer && q.taskClass == taskClass && UpTo(from, q.expires)
    ensures var g := SiblingGrant(supervisor, child, peer, taskClass, grantId, from, until, parent);
            parent in l.grants && Recorded(Issued(l, g))
            && (Grounds(org, Issued(l, g), q, from, grantId) <==> AboveAllows(l, parent, peer))
  {
    hide ValidRequest, Recorded, Narrowing, Shaped, UpTo, OpenAt, Ancestry, Earliest, FirstRefused, OnChain, ValidChart;
    var g := SiblingGrant(supervisor, child, peer, taskClass, grantId, from, until, parent);
    var l' := Issued(l, g);
    IssuedRecorded(l, g, from);
    StepLawful(l, DoIssue(g, from));
    AncestryStep(l', grantId);
    IssueKeepsAncestry(l, g, parent);
    assert Ancestry(l', grantId) == [grantId] + Ancestry(l, parent);
    IssueDisturbsNothing(l, g, from, parent, from);
    RevokedKnown(l, grantId);
    NewGrantOpens(l', grantId, g, parent, from);
    DistinctParties(q);
    assert Names(g, CrossBranch(taskClass)) by {
      assert g.scopes[0].name == CrossBranch(taskClass);
    }
    SiblingsSupervisor(org, peer, supervisor);
    NotPastAnyEnd(l', grantId, from, q.expires);
    PeersOfSibling(l, l', g, parent, peer);
  }

  lemma RevokedKnown(l: Ledger, id: string)
    requires Recorded(l)
    ensures id in l.revoked ==> id in l.grants
  {
  }

  lemma DistinctParties(q: CollaborationRequest)
    requires ValidRequest(q)
    ensures q.requester != q.peer
  {
  }

  lemma NewGrantOpens(l: Ledger, id: string, g: Grant, parent: string, from: string)
    requires Recorded(l) && id in l.grants && l.grants[id] == g && g.parent == Some(parent) && id !in l.revoked
    requires parent in l.grants && OpenAt(l, parent, from) && CheckShape(g).Success? && g.validFrom == from
    ensures OpenAt(l, id, from)
  {
    hide Recorded, OpenAt, Ancestry, UpTo;
    OpenStep(l, id, from);
    UpToTotal(from, from);
    UpToTotal(from, g.validUntil);
  }

  lemma SiblingsSupervisor(org: OrgChart, peer: string, supervisor: string)
    requires ValidChart(org) && ReportsTo(org, peer, supervisor)
    ensures OnChain(org, peer, supervisor)
  {
    CheckedChainExact(org, peer);
    var p := CheckedChain(org, peer).value;
    assert |p| > 1 && p[1] == supervisor;
  }

  lemma {:induction false} EarliestIsGreatest(grants: map<string, Grant>, ids: seq<string>, expires: string, at: string)
    requires forall x | x in ids :: x in grants && UpTo(at, grants[x].validUntil)
    requires UpTo(at, expires)
    ensures UpTo(at, Earliest(grants, ids, expires))
  {
    hide UpTo;
    if ids != [] {
      EarliestIsGreatest(grants, ids[1..], Earlier(expires, grants[ids[0]].validUntil), at);
    }
  }

  lemma NotPastAnyEnd(l: Ledger, id: string, at: string, expires: string)
    requires Recorded(l) && id in l.grants && OpenAt(l, id, at) && UpTo(at, expires)
    ensures UpTo(at, Earliest(l.grants, Ancestry(l, id), expires))
  {
    hide Recorded, UpTo, Ancestry, Earliest;
    forall x | x in Ancestry(l, id) ensures UpTo(at, l.grants[x].validUntil) {
      assert OpenItself(l, x, at);
    }
    EarliestIsGreatest(l.grants, Ancestry(l, id), expires, at);
  }

  lemma PeersOfSibling(l: Ledger, l': Ledger, g: Grant, parent: string, peer: string)
    requires Recorded(l) && Recorded(l') && l' == Issued(l, g) && g.grantId !in l.grants && parent in l.grants && g.peer == Some(peer)
    requires Ancestry(l', g.grantId) == [g.grantId] + Ancestry(l, parent)
    ensures (forall x | x in Ancestry(l', g.grantId) && l'.grants[x].peer.Some? :: l'.grants[x].peer.value == peer)
            <==> AboveAllows(l, parent, peer)
    ensures exists x :: x in Ancestry(l', g.grantId) && l'.grants[x].peer.Some?
  {
    hide Recorded, Ancestry;
    var all := Ancestry(l', g.grantId);
    assert forall x :: x in all <==> x == g.grantId || x in Ancestry(l, parent);
  }

  // ------------------------------------------------------- grants never used

  /**
   Where a grant above is restricted to somebody else, the sibling grant is no grounds for any
   permit: not for any request, under any chart, at any time, after anything that is issued
   or revoked later.
   */
  lemma RestrictedSiblingNeverGrounds(
      l: Ledger, supervisor: string, child: string, peer: string, taskClass: string, grantId: string, from: string,
      until: string, parent: string, ops: seq<Op>, org: OrgChart, q: CollaborationRequest, at: string)
    requires Lawful(l) && grantId !in l.grants
    requires IssueOutcome(l, SiblingGrant(supervisor, child, peer, taskClass, grantId, from, until, parent), from).Success?
    requires !AboveAllows(l, parent, peer)
    ensures var l' := Issued(l, SiblingGrant(supervisor, child, peer, taskClass, grantId, from, until, parent));
            Lawful(l') && !Grounds(org, Run(l', ops), q, at, grantId)
  {
    hide Recorded, Narrowing, Shaped, Ancestry, OpenAt, ValidChart, ValidRequest, OnChain, Run;
    var g := SiblingGrant(supervisor, child, peer, taskClass, grantId, from, until, parent);
    var l' := Issued(l, g);
    IssuedRecorded(l, g, from);
    StepLawful(l, DoIssue(g, from));
    AncestryStep(l', grantId);
    IssueKeepsAncestry(l, g, parent);
    var x :| x in Ancestry(l, parent) && l.grants[x].peer.Some? && l.grants[x].peer.value != peer;
    RecordStands(l', ops, grantId);
    RecordStands(l', ops, x);
    var later := Ancestry(Run(l', ops), grantId);
    assert x in later && grantId in later;
  }

  /** A charter of a scope that may be passed on, restricted to one agent. */
  function RestrictedCharter(id: string, grantee: string, taskClass: string, from: string, until: string, stranger: string): Grant {
    Grant(id, DEPLOYMENT_CHARTERER, grantee, [Scope(CrossBranch(taskClass), true)], from, until, None, Some(stranger))
  }

  lemma CharterIssued(g: Grant, at: string)
    requires g.parent.None? && CheckShape(g).Success? && ValidTimestamp(at)
    ensures Lawful(EMPTY) && Lawful(Issued(EMPTY, g)) && Run(EMPTY, [DoIssue(g, at)]) == Issued(EMPTY, g)
  {
    hide CheckShape, ValidTimestamp;
    EmptyLawful();
    var ops := [DoIssue(g, at)];
    StepLawful(EMPTY, ops[0]);
    assert Run(Step(EMPTY, ops[0]), ops[1..]) == Step(EMPTY, ops[0]);
  }

  lemma CharterHeld(l: Ledger, g: Grant, scope: string, at: string)
    requires l == Issued(EMPTY, g) && Lawful(l) && g.parent.None? && ValidTimestamp(at) && WindowOpen(g, at)
    requires g.scopes == [Scope(scope, true)]
    ensures IsFirstDelegable(l, g.grantId, g.grantee, scope, at) && Ancestry(l, g.grantId) == [g.grantId]
  {
    hide Recorded, Narrowing, Shaped, Ancestry, ValidTimestamp, WindowOpen;
    AncestryStep(l, g.grantId);
    assert g.scopes[0] == Scope(scope, true);
    assert OpenItself(l, g.grantId, at);
    UpToTotal(g.grantId, g.grantId);
  }

  lemma TeamChart(child: string, sibling: string, supervisor: string)
    requires AgentUrn(child) && AgentUrn(sibling) && AgentUrn(supervisor)
    requires child != sibling && supervisor != child && supervisor != sibling
    ensures var org := OrgChart(map[child := supervisor, sibling := supervisor]);
            ValidChart(org) && SharesParent(org, child, sibling) && org.parentOf[child] == supervisor
  {
    hide CheckedChain, AgentUrn;
    var org := OrgChart(map[child := supervisor, sibling := supervisor]);
    CheckedChainExact(org, child);
    CheckedChainExact(org, sibling);
    assert IsChain(org, [child, supervisor]) && IsChain(org, [sibling, supervisor]);
  }

  /** Names and times for two siblings, their supervisor, a stranger and two grants. */
  datatype Cast = Cast(
    supervisor: string, child: string, sibling: string, stranger: string, taskClass: string, charterId: string, grantId: string,
    from: string, until: string)

  predicate Fit(c: Cast) {
    && AgentUrn(c.supervisor) && AgentUrn(c.child) && AgentUrn(c.sibling) && AgentUrn(c.stranger)
    && c.child != c.sibling && c.supervisor != c.child && c.supervisor != c.sibling && c.stranger != c.sibling
    && HexId("g-", c.charterId) && HexId("g-", c.grantId) && c.charterId != c.grantId
    && ValidTimestamp(c.from) && ValidTimestamp(c.until) && UpTo(c.from, c.until)
  }

  function TeamOf(c: Cast): OrgChart {
    OrgChart(map[c.child := c.supervisor, c.sibling := c.supervisor])
  }

  function CharterOf(c: Cast): Grant {
    RestrictedCharter(c.charterId, c.supervisor, c.taskClass, c.from, c.until, c.stranger)
  }

  function SiblingGrantOf(c: Cast): Grant {
    SiblingGrant(c.supervisor, c.child, c.sibling, c.taskClass, c.grantId, c.from, c.until, c.charterId)
  }

  /**
   With nothing but the charter recorded, authorizing the siblings succeeds, and its grant is
   grounds for nothing, ever.
   */
  ghost predicate IssuesIdleGrant(c: Cast) {
    && ValidChart(TeamOf(c)) && SharesParent(TeamOf(c), c.child, c.sibling) && TeamOf(c).parentOf[c.child] == c.supervisor
    && Lawful(EMPTY)
    && var l := Run(EMPTY, [DoIssue(CharterOf(c), c.from)]);
       IsFirstDelegable(l, c.charterId, c.supervisor, CrossBranch(c.taskClass), c.from)
       && IssueOutcome(l, SiblingGrantOf(c), c.from).Success? && c.grantId !in l.grants && Lawful(Issued(l, SiblingGrantOf(c)))
       && NeverGrounds(Issued(l, SiblingGrantOf(c)), c.grantId)
  }

  ghost predicate NeverGrounds(l: Ledger, id: string)
    requires Lawful(l)
  {
    forall ops, org, q, at :: !Grounds(org, Run(l, ops), q, at, id)
  }

  /**
   It does happen, whatever the names: under a charter restricted to a stranger, authorizing two
   siblings succeeds and leaves a grant that is never of any use.
   */
  lemma SiblingGrantCanBeIdle(c: Cast)
    requires Fit(c)
    ensures IssuesIdleGrant(c)
  {
    hide AgentUrn, HexId, Recorded, Narrowing, Shaped, Ancestry, OpenAt, ValidChart, ValidTimestamp, UpTo, Run, Grounds;
    var charter, g := CharterOf(c), SiblingGrantOf(c);
    TeamChart(c.child, c.sibling, c.supervisor);
    UpToTotal(c.from, c.from);
    UpToTotal(c.from, c.until);
    assert CheckShape(charter).Success? && CheckShape(g).Success?;
    CharterIssued(charter, c.from);
    var l := Issued(EMPTY, charter);
    CharterHeld(l, charter, CrossBranch(c.taskClass), c.from);
    assert Upstream(charter.scopes, g.scopes[0].name) == Some(true);
    assert FirstRefused(g.scopes[1..], charter.scopes).None? && FirstRefused(g.scopes, charter.scopes).None?;
    assert IssueOutcome(l, g, c.from).Success?;
    StepLawful(l, DoIssue(g, c.from));
    forall ops, org, q, at ensures !Grounds(org, Run(Issued(l, g), ops), q, at, c.grantId) {
      RestrictedSiblingNeverGrounds(
        l, c.supervisor, c.child, c.sibling, c.taskClass, c.grantId, c.from, c.until, c.charterId, ops, org, q, at);
    }
    assert NeverGrounds(Issued(l, g), c.grantId);
  }

  lemma NewYear(s: string)
    requires |s| == 20 && s[4..] == "-01-01T00:00:00Z" && forall i | 0 <= i < 4 :: '0' <= s[i] <= '9'
    ensures ValidTimestamp(s)
  {
    assert forall i | 4 <= i < 20 :: s[i] == s[4..][i - 4];
    Utf8Ascii(s);
    hide Utf8;
  }

  lemma LetterUrn(s: string, letter: char)
    requires s == AGENT_PREFIX + [letter] && 'a' <= letter <= 'z'
    ensures AgentUrn(s) && |s| > 0 && s[|s| - 1] == letter
  {
  }

  const EXAMPLE := Cast("urn:hacp:agent:s", "urn:hacp:agent:a", "urn:hacp:agent:b", "urn:hacp:agent:c", "x",
                        "g-000000000001", "g-000000000002", "2026-01-01T00:00:00Z", "2026-01-01T00:00:00Z")

  lemma ExampleNames()
    ensures AgentUrn(EXAMPLE.supervisor) && AgentUrn(EXAMPLE.child) && AgentUrn(EXAMPLE.sibling) && AgentUrn(EXAMPLE.stranger)
    ensures var c := EXAMPLE;
            c.child != c.sibling && c.supervisor != c.child && c.supervisor != c.sibling && c.stranger != c.sibling
  {
    hide AgentUrn;
    LetterUrn(EXAMPLE.supervisor, 's');
    LetterUrn(EXAMPLE.child, 'a');
    LetterUrn(EXAMPLE.sibling, 'b');
    LetterUrn(EXAMPLE.stranger, 'c');
  }

  lemma ExampleIds()
    ensures HexId("g-", EXAMPLE.charterId) && HexId("g-", EXAMPLE.grantId) && EXAMPLE.charterId != EXAMPLE.grantId
  {
    assert EXAMPLE.charterId[13] != EXAMPLE.grantId[13];
  }

  lemma ExampleTimes()
    ensures ValidTimestamp(EXAMPLE.from) && EXAMPLE.from == EXAMPLE.until && UpTo(EXAMPLE.from, EXAMPLE.until)
  {
    hide ValidTimestamp;
    NewYear(EXAMPLE.from);
  }

  lemma SiblingGrantIsIdle()
    ensures IssuesIdleGrant(EXAMPLE)
  {
    hide AgentUrn, HexId, ValidTimestamp, UpTo, IssuesIdleGrant;
    ExampleNames();
    ExampleIds();
    ExampleTimes();
    SiblingGrantCanBeIdle(EXAMPLE);
  }

  /** A sibling grant ends with its holder: nothing can be issued under it for its scope. */
  lemma SiblingGrantEndsThere(
      l: Ledger, supervisor: string, child: string, peer: string, taskClass: string,
      grantId: string, from: string, until: string, parent: string, g: Grant, at: string)
    requires Recorded(l) && grantId in l.grants
    requires l.grants[grantId] == SiblingGrant(supervisor, child, peer, taskClass, grantId, from, until, parent)
    requires g.parent == Some(grantId) && g.grantId !in l.grants && Names(g, "cross-branch/" + taskClass)
    ensures IssueOutcome(l, g, at).Failure?
  {
    hide Recorded, OpenAt, GrantId, GoodNames, GoodWindow, ValidTimestamp;
    IssueExact(l, g, at);
    var i :| 0 <= i < |g.scopes| && g.scopes[i].name == "cross-branch/" + taskClass;
    assert !LetsPass(l.grants[grantId].scopes, g.scopes[i].name);
  }
}
