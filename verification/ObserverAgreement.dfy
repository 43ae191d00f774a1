/**
 The observer accepts what the engine makes: over any set of contracts that calls have
 brought about, keyed by their ids, the bindings `contract_view` in `src/secure/guardian.rs`
 leads `ContractView::check` in `src/secure/transport.rs` to accept are the latest revisions.
 */
module ObserverAgreement {
  import opened Wrappers
  import opened Text
  import opened Secure
  import opened Canon
  import opened Binding
  import opened ContractSteps
  import opened ContractRuns
  import opened Observers

  type Contracts = seq<Entry<Fields>>

  /** Digests neither collide nor start like a tagged digest. */
  ghost predicate IdealDigests(sha256: string -> string) {
    (forall s, t :: sha256(s) == sha256(t) ==> s == t) && forall s :: !(SHA_PREFIX <= sha256(s))
  }

  /** A contract some run of calls has brought about, over terms that are JSON values. */
  ghost predicate Reached(sha256: string -> string, c: Fields) {
    exists participants, limits, calls ::
      Formable(participants, limits) && c == Run(sha256, Formed(c.contractId, participants, limits), calls)
  }

  /** What is in the snapshot came out of the engine and is filed under its own id. */
  ghost predicate FromEngine(sha256: string -> string, contracts: Contracts) {
    DistinctKeys(contracts)
    && forall i | 0 <= i < |contracts| :: EntryOk(sha256, contracts[i])
  }

  ghost predicate EntryOk(sha256: string -> string, e: Entry<Fields>) {
    Reached(sha256, e.item) && e.item.contractId == e.key && |e.item.revisions| <= U64_MAX
    && forall k | 0 <= k < |e.item.revisions| :: WellFormed(e.item.revisions[k].content)
  }

  lemma ReachedSound(sha256: string -> string, c: Fields)
    requires Reached(sha256, c)
    ensures Sound(sha256, c)
  {
    hide Run, Sound;
    var participants, limits, calls :|
      Formable(participants, limits) && c == Run(sha256, Formed(c.contractId, participants, limits), calls);
    FormedSound(sha256, c.contractId, participants, limits);
    RunSound(sha256, Formed(c.contractId, participants, limits), calls);
  }

  // --------------------------------------------------- what a scan collects

  predicate IsFrozen(c: Fields) {
    c.revisions != []
  }

  /** A negotiation that has not frozen yet or never will. */
  predicate Unfrozen(c: Fields) {
    Negotiating(c) || EndedUnfrozen(c)
  }

  function Current(e: Entry<Fields>): ContractView
    requires IsFrozen(e.item)
  {
    var r := e.item.revisions[|e.item.revisions| - 1];
    ContractView.Frozen(e.key, |e.item.revisions|, r.content, r.digest)
  }

  function Tags(rs: seq<Revision>): (r: seq<string>)
    ensures |r| == |rs| && forall k | 0 <= k < |rs| :: r[k] == Bound(rs[k].digest)
  {
    if rs == [] then [] else Tags(rs[..|rs| - 1]) + [Bound(rs[|rs| - 1].digest)]
  }

  /** One recorded revision more is read. */
  lemma ReadSoundStep(sha256: string -> string, e: Entry<Fields>, k: nat, seen: Seen)
    requires IdealDigests(sha256) && HistoryOk(sha256, e.item) && e.item.contractId == e.key
    requires |e.item.revisions| <= U64_MAX && 0 < k <= |e.item.revisions|
    ensures var rs := e.item.revisions;
            var so := ReadRevisions(sha256, e.key, rs, k - 1, seen);
            so.Success? ==>
              ReadRevisions(sha256, e.key, rs, k, seen)
              == Success(if k == |rs| then so.value.(observed := so.value.observed + [Current(e)])
                         else so.value.(superseded := so.value.superseded + [Bound(rs[k - 1].digest)]))
  {
    hide RevisionDigest, Bound;
    var rs := e.item.revisions;
    assert rs[k - 1].number == k && (k >= 2 ==> rs[k - 2].number == k - 1);
    DigestUntagged(sha256, e.key, k, rs[k - 1].content, rs[k - 1].digest);
  }

  lemma OneMoreTag(rs: seq<Revision>, k: nat, before: seq<string>)
    requires 0 < k <= |rs|
    ensures before + Tags(rs[..k - 1]) + [Bound(rs[k - 1].digest)] == before + Tags(rs[..k])
  {
    hide Bound;
    assert rs[..k][..k - 1] == rs[..k - 1];
  }

  lemma NothingRead(sha256: string -> string, id: string, rs: seq<Revision>, seen: Seen)
    ensures ReadRevisions(sha256, id, rs, 0, seen) == Success(seen.(superseded := seen.superseded + Tags(rs[..0])))
  {
    assert rs[..0] == [] && seen.superseded + [] == seen.superseded;
  }

  lemma {:induction false} ReadsSound(sha256: string -> string, e: Entry<Fields>, k: nat, seen: Seen)
    requires IdealDigests(sha256) && HistoryOk(sha256, e.item) && e.item.contractId == e.key
    requires |e.item.revisions| <= U64_MAX && k <= |e.item.revisions|
    ensures ReadRevisions(sha256, e.key, e.item.revisions, k, seen)
            == Success(if k < |e.item.revisions| || k == 0 then seen.(superseded := seen.superseded + Tags(e.item.revisions[..k]))
                       else seen.(superseded := seen.superseded + Tags(e.item.revisions[..k - 1]),
                                  observed := seen.observed + [Current(e)]))
  {
    hide IdealDigests, HistoryOk, ReadRevisions, Tags, Bound;
    var rs := e.item.revisions;
    if k == 0 {
      NothingRead(sha256, e.key, rs, seen);
    } else {
      ReadsSound(sha256, e, k - 1, seen);
      ReadSoundStep(sha256, e, k, seen);
      OneMoreTag(rs, k, seen.superseded);
    }
  }

  lemma DigestUntagged(sha256: string -> string, id: string, n: nat, content: Json, digest: string)
    requires IdealDigests(sha256) && RevisionDigest(sha256, id, n, content) == Success(digest)
    ensures Stripped(digest) == digest
  {
    hide Canonical;
  }

  /** Reading one contract never fails, and adds its current and earlier revisions. */
  lemma SeeSound(sha256: string -> string, e: Entry<Fields>, seen: Seen)
    requires IdealDigests(sha256) && Sound(sha256, e.item) && e.item.contractId == e.key && |e.item.revisions| <= U64_MAX
    ensures var rs := e.item.revisions;
            See(sha256, e.key, e.item, seen)
            == Success(Seen(seen.observed + (if IsFrozen(e.item) then [Current(e)] else []),
                            seen.superseded + (if IsFrozen(e.item) then Tags(rs[..|rs| - 1]) else []),
                            seen.bootstrap || Unfrozen(e.item)))
  {
    hide RevisionDigest, ReadRevisions;
    ReadsSound(sha256, e, |e.item.revisions|, seen.(bootstrap := seen.bootstrap || Negotiating(e.item)));
    assert seen.observed + [] == seen.observed && seen.superseded + [] == seen.superseded;
  }

  /** The current views are those of the frozen contracts. */
  ghost predicate CollectsCurrent(contracts: Contracts, observed: seq<ContractView>) {
    && (forall i | 0 <= i < |contracts| && IsFrozen(contracts[i].item) :: Current(contracts[i]) in observed)
    && forall v | v in observed :: exists i :: IsCurrent(contracts, i, v)
  }

  ghost predicate IsCurrent(contracts: Contracts, i: int, v: ContractView) {
    0 <= i < |contracts| && IsFrozen(contracts[i].item) && v == Current(contracts[i])
  }

  /** The superseded bindings are those of the earlier revisions. */
  ghost predicate CollectsEarlier(contracts: Contracts, superseded: seq<string>) {
    forall s :: s in superseded <==> exists i, k :: IsEarlier(contracts, i, k, s)
  }

  ghost predicate CollectsUnfrozen(contracts: Contracts, bootstrap: bool) {
    bootstrap <==> exists i :: 0 <= i < |contracts| && Unfrozen(contracts[i].item)
  }

  ghost predicate Collected(contracts: Contracts, seen: Seen) {
    CollectsCurrent(contracts, seen.observed) && CollectsEarlier(contracts, seen.superseded)
    && CollectsUnfrozen(contracts, seen.bootstrap)
  }

  /** `s` binds revision `k` of contract `i`, which is not its latest. */
  ghost predicate IsEarlier(contracts: Contracts, i: int, k: int, s: string) {
    0 <= i < |contracts| && 0 <= k < |contracts[i].item.revisions| - 1 && s == Bound(contracts[i].item.revisions[k].digest)
  }

  /** `s` binds the latest revision of contract `i`. */
  ghost predicate IsLatest(contracts: Contracts, i: int, s: string) {
    0 <= i < |contracts| && IsFrozen(contracts[i].item) && s == Bound(FrozenDigest(contracts[i].item))
  }

  lemma CurrentStep(contracts: Contracts, e: Entry<Fields>, observed: seq<ContractView>)
    requires CollectsCurrent(contracts, observed)
    ensures CollectsCurrent(contracts + [e], observed + (if IsFrozen(e.item) then [Current(e)] else []))
  {
    var all := contracts + [e];
    assert all[|contracts|] == e;
    var longer := observed + (if IsFrozen(e.item) then [Current(e)] else []);
    forall v | v in longer ensures exists i :: IsCurrent(all, i, v) {
      if v in observed {
        var i :| IsCurrent(contracts, i, v);
        assert IsCurrent(all, i, v);
      } else {
        assert IsCurrent(all, |contracts|, v);
      }
    }
  }

  lemma EarlierStep(contracts: Contracts, e: Entry<Fields>, superseded: seq<string>)
    requires CollectsEarlier(contracts, superseded)
    ensures var rs := e.item.revisions;
            CollectsEarlier(contracts + [e], superseded + (if IsFrozen(e.item) then Tags(rs[..|rs| - 1]) else []))
  {
    var all, rs := contracts + [e], e.item.revisions;
    var more := if IsFrozen(e.item) then Tags(rs[..|rs| - 1]) else [];
    forall s ensures s in superseded + more <==> exists i, k :: IsEarlier(all, i, k, s) {
      if s in superseded {
        var i, k :| IsEarlier(contracts, i, k, s);
        assert IsEarlier(all, i, k, s);
      } else if s in more {
        var k :| 0 <= k < |more| && more[k] == s;
        assert IsEarlier(all, |contracts|, k, s);
      } else if i, k :| IsEarlier(all, i, k, s) {
        EarlierSplit(contracts, e, i, k, s);
      }
    }
  }

  lemma EarlierSplit(contracts: Contracts, e: Entry<Fields>, i: int, k: int, s: string)
    requires IsEarlier(contracts + [e], i, k, s)
    ensures IsEarlier(contracts, i, k, s)
            || (IsFrozen(e.item) && s in Tags(e.item.revisions[..|e.item.revisions| - 1]))
  {
    if i == |contracts| {
      assert Tags(e.item.revisions[..|e.item.revisions| - 1])[k] == s;
    }
  }

  lemma UnfrozenStep(contracts: Contracts, e: Entry<Fields>, bootstrap: bool)
    requires CollectsUnfrozen(contracts, bootstrap)
    ensures CollectsUnfrozen(contracts + [e], bootstrap || Unfrozen(e.item))
  {
    var all := contracts + [e];
    assert all[|contracts|] == e && forall i | 0 <= i < |contracts| :: all[i] == contracts[i];
    if bootstrap {
      var i :| 0 <= i < |contracts| && Unfrozen(contracts[i].item);
      assert Unfrozen(all[i].item);
    }
  }

  lemma {:induction false} ScanCollects(sha256: string -> string, contracts: Contracts)
    requires IdealDigests(sha256) && forall i | 0 <= i < |contracts| :: EntryOk(sha256, contracts[i])
    ensures SeeAll(sha256, contracts).Success? && Collected(contracts, SeeAll(sha256, contracts).value)
  {
    hide See, Reached, Sound, CollectsCurrent, CollectsEarlier, CollectsUnfrozen;
    if contracts == [] {
      NothingCollected();
    } else {
      var n := |contracts| - 1;
      assert forall i | 0 <= i < n :: contracts[..n][i] == contracts[i];
      ScanCollects(sha256, contracts[..n]);
      var seen := SeeAll(sha256, contracts[..n]).value;
      assert EntryOk(sha256, contracts[n]);
      ReachedSound(sha256, contracts[n].item);
      SeeSound(sha256, contracts[n], seen);
      CurrentStep(contracts[..n], contracts[n], seen.observed);
      EarlierStep(contracts[..n], contracts[n], seen.superseded);
      UnfrozenStep(contracts[..n], contracts[n], seen.bootstrap);
      assert contracts[..n] + [contracts[n]] == contracts;
    }
  }

  lemma NothingCollected()
    ensures Collected([], Seen([], [], false))
  {
  }

  // ------------------------------------------------- what the check accepts

  /** A revision digest tells the contract and the number it was taken for. */
  lemma DigestTells(
      sha256: string -> string, id: string, n: nat, x: Json, id': string, n': nat, y: Json)
    requires IdealDigests(sha256) && WellFormed(x) && WellFormed(y)
    requires RevisionDigest(sha256, id, n, x).Success? && RevisionDigest(sha256, id, n, x) == RevisionDigest(sha256, id', n', y)
    ensures id == id' && n == n'
  {
    hide Canonical;
    var a, b := RevisionJson(id, n, x), RevisionJson(id', n', y);
    RevisionMembers(id, n, x);
    RevisionMembers(id', n', y);
    CanonicalIffIntegersOnly(a, "$");
    CanonicalIffIntegersOnly(b, "$");
    CanonicalTextDecidesValue(a, b, "$");
    RevisionFields(id, n, x, id', n', y);
  }

  lemma RevisionMembers(id: string, n: nat, x: Json)
    requires WellFormed(x)
    ensures WellFormed(RevisionJson(id, n, x))
  {
    var ms := RevisionJson(id, n, x).members;
    assert ms[0].item == String(id) && ms[1].item == Number(Decimal(n)) && ms[2].item == x;
    assert WellFormed(ms[0].item) && WellFormed(ms[1].item);
    assert "contract_id"[0] != "revision"[0] && |"revision"| != |"content"| && |"contract_id"| != |"content"|;
  }

  lemma RevisionFields(id: string, n: nat, x: Json, id': string, n': nat, y: Json)
    requires Same(RevisionJson(id, n, x), RevisionJson(id', n', y))
    ensures id == id' && n == n'
  {
    var ms, ns := RevisionJson(id, n, x).members, RevisionJson(id', n', y).members;
    assert HasMember(ns, ms[0].key, ms[0].item) && HasMember(ns, ms[1].key, ms[1].item);
    var i :| 0 <= i < |ns| && ms[0].key == ns[i].key && Same(ms[0].item, ns[i].item);
    var j :| 0 <= j < |ns| && ms[1].key == ns[j].key && Same(ms[1].item, ns[j].item);
    assert |"contract_id"| == 11 && |"revision"| == 8 && |"content"| == 7;
    assert i == 0 && j == 1;
    DecimalInjective(n, n');
  }

  /** No binding is both an earlier revision and a latest one. */
  lemma LatestIsNotEarlier(sha256: string -> string, contracts: Contracts, i: int, j: int, k: int, s: string)
    requires IdealDigests(sha256) && FromEngine(sha256, contracts) && IsLatest(contracts, i, s)
    ensures !IsEarlier(contracts, j, k, s)
  {
    hide Reached, RevisionDigest;
    if IsEarlier(contracts, j, k, s) {
      var c, d := contracts[i].item, contracts[j].item;
      ReachedSound(sha256, c);
      ReachedSound(sha256, d);
      var n := |c.revisions|;
      assert Bound(d.revisions[k].digest)[|SHA_PREFIX|..] == d.revisions[k].digest;
      assert Bound(FrozenDigest(c))[|SHA_PREFIX|..] == FrozenDigest(c);
      DigestTells(sha256, c.contractId, n, c.revisions[n - 1].content, d.contractId, k + 1, d.revisions[k].content);
    }
  }

  lemma CurrentGenuine(sha256: string -> string, e: Entry<Fields>)
    requires IdealDigests(sha256) && EntryOk(sha256, e) && IsFrozen(e.item)
    ensures Genuine(sha256, Current(e)) && Stripped(Current(e).digest) == FrozenDigest(e.item)
  {
    hide Reached, RevisionDigest;
    ReachedSound(sha256, e.item);
    var n := |e.item.revisions|;
    DigestUntagged(sha256, e.key, n, e.item.revisions[n - 1].content, e.item.revisions[n - 1].digest);
  }

  /** The shortcuts of a derived view answer like the general form it stands for. */
  lemma ShownAnswersAlike(sha256: string -> string, seen: Seen, claimed: string)
    requires forall v | v in seen.observed :: v.Frozen?
    ensures Check(sha256, Shown(seen), claimed) == Check(sha256, Observed(seen.observed, seen.superseded, seen.bootstrap), claimed)
  {
    hide Check;
    if seen.observed == [] && seen.superseded == [] {
      ShortcutsAgree(sha256, seen.bootstrap, Bootstrap, claimed);
    } else if |seen.observed| == 1 && seen.superseded == [] && !seen.bootstrap {
      assert seen.observed[0] in seen.observed && seen.observed == [seen.observed[0]];
      ShortcutsAgree(sha256, false, seen.observed[0], claimed);
    }
  }

  /** What a claimed binding deserves, told from the contracts themselves. */
  ghost function Deserved(contracts: Contracts, claimed: string): Checked {
    if exists i, k :: IsEarlier(contracts, i, k, claimed) then Failure(ContractMismatch)
    else if exists i :: IsLatest(contracts, i, claimed) then OK
    else if (exists i :: 0 <= i < |contracts| && Unfrozen(contracts[i].item))
            || forall i | 0 <= i < |contracts| :: !IsFrozen(contracts[i].item)
    then if claimed == "" then OK else Failure(ContractPending)
    else Failure(ContractMismatch)
  }

  /** A current view is genuine and stands for the latest revision of a contract. */
  lemma CurrentStands(sha256: string -> string, contracts: Contracts, i: int, v: ContractView)
    requires IdealDigests(sha256) && FromEngine(sha256, contracts) && IsCurrent(contracts, i, v)
    ensures v.Frozen? && Genuine(sha256, v) && IsLatest(contracts, i, Bound(Stripped(v.digest)))
  {
    hide RevisionDigest, Genuine, Stripped, EntryOk;
    CurrentGenuine(sha256, contracts[i]);
  }

  lemma CurrentViews(sha256: string -> string, contracts: Contracts, observed: seq<ContractView>)
    requires IdealDigests(sha256) && FromEngine(sha256, contracts) && CollectsCurrent(contracts, observed)
    ensures forall v | v in observed ::
              v.Frozen? && Genuine(sha256, v) && exists i :: IsLatest(contracts, i, Bound(Stripped(v.digest)))
    ensures observed == [] <==> forall i | 0 <= i < |contracts| :: !IsFrozen(contracts[i].item)
  {
    hide FromEngine, Genuine, Stripped, IsLatest, Current;
    forall v | v in observed
      ensures v.Frozen? && Genuine(sha256, v) && exists i :: IsLatest(contracts, i, Bound(Stripped(v.digest)))
    {
      var i :| IsCurrent(contracts, i, v);
      CurrentStands(sha256, contracts, i, v);
    }
    if observed != [] {
      assert observed[0] in observed;
      var i :| IsCurrent(contracts, i, observed[0]);
    }
  }

  lemma LatestIsObserved(sha256: string -> string, contracts: Contracts, observed: seq<ContractView>, i: int, claimed: string)
    requires IdealDigests(sha256) && FromEngine(sha256, contracts) && CollectsCurrent(contracts, observed)
    requires IsLatest(contracts, i, claimed)
    ensures exists j :: 0 <= j < |observed| && observed[j].Frozen? && claimed == Bound(Stripped(observed[j].digest))
  {
    hide RevisionDigest, Genuine, Stripped, EntryOk;
    CurrentGenuine(sha256, contracts[i]);
    var j :| 0 <= j < |observed| && observed[j] == Current(contracts[i]);
  }

  lemma GeneralAnswer(sha256: string -> string, contracts: Contracts, seen: Seen, claimed: string)
    requires IdealDigests(sha256) && FromEngine(sha256, contracts) && Collected(contracts, seen)
    ensures Check(sha256, Observed(seen.observed, seen.superseded, seen.bootstrap), claimed) == Deserved(contracts, claimed)
    ensures forall v | v in seen.observed :: v.Frozen?
  {
    hide FromEngine, Genuine, Stripped, IsLatest, IsEarlier, CollectsCurrent;
    CurrentViews(sha256, contracts, seen.observed);
    if i :| IsLatest(contracts, i, claimed) {
      LatestIsObserved(sha256, contracts, seen.observed, i, claimed);
    }
  }

  /**
   The observer accepts what the engine makes. Deriving a view from contracts the engine
   brought about never fails, and the check against it accepts a binding exactly when it is
   the latest revision of some frozen contract, or is empty while some negotiation has not
   frozen (proposed, countered, or ended unfrozen) or nothing is frozen. Earlier revisions
   are mismatches, and only unknown bindings during an open negotiation are left pending.
   */
  lemma ObserverAcceptsEngine(sha256: string -> string, contracts: Contracts, claimed: string)
    requires IdealDigests(sha256) && FromEngine(sha256, contracts)
    ensures View(sha256, true, contracts).Success?
    ensures Check(sha256, View(sha256, true, contracts).value, claimed) == Deserved(contracts, claimed)
    ensures Check(sha256, View(sha256, true, contracts).value, claimed).Success?
            <==> (exists i :: IsLatest(contracts, i, claimed))
                 || (claimed == ""
                     && ((exists i :: 0 <= i < |contracts| && Unfrozen(contracts[i].item))
                         || forall i | 0 <= i < |contracts| :: !IsFrozen(contracts[i].item)))
  {
    hide Check, EntryOk, Shown;
    ScanCollects(sha256, contracts);
    var seen := SeeAll(sha256, contracts).value;
    GeneralAnswer(sha256, contracts, seen, claimed);
    ShownAnswersAlike(sha256, seen, claimed);
    forall i, j, k | IsLatest(contracts, i, claimed) ensures !IsEarlier(contracts, j, k, claimed) {
      LatestIsNotEarlier(sha256, contracts, i, j, k, claimed);
    }
  }

  /**
   The contracts of another session: nothing of them is looked at, the empty binding is
   accepted, and any other has to wait.
   */
  lemma AnotherSessionWaits(sha256: string -> string, contracts: Contracts, claimed: string)
    ensures View(sha256, false, contracts).Success?
    ensures Check(sha256, View(sha256, false, contracts).value, claimed)
            == if claimed == "" then OK else Failure(ContractPending)
  {
    hide SeeAll;
  }
}
