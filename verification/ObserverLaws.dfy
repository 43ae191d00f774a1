/**
 What a guardian accepts under a snapshot of any contracts at all, made by the engine or not
 (`contract_view` in `src/secure/guardian.rs`, `ContractView::check` in `src/secure/transport.rs`).
 */
module ObserverLaws {
  import opened Wrappers
  import opened Secure
  import opened Canon
  import opened Binding
  import opened ContractSteps
  import opened Observers

  type Contracts = seq<Entry<Fields>>

  /** A revision that does not count up, or whose digest is not the digest of what it shows. */
  ghost predicate Bad(sha256: string -> string, id: string, rs: seq<Revision>, k: int)
    requires 0 <= k < |rs|
  {
    || rs[k].number <= (if k == 0 then 0 else rs[k - 1].number)
    || rs[k].number > 0xFFFF_FFFF_FFFF_FFFF
    || RevisionDigest(sha256, id, rs[k].number, rs[k].content) != Success(Stripped(rs[k].digest))
  }

  ghost predicate AnyBad(sha256: string -> string, id: string, rs: seq<Revision>, n: nat)
    requires n <= |rs|
  {
    exists k :: 0 <= k < n && Bad(sha256, id, rs, k)
  }

  /** Frozen before it ended or goes on: its revisions are read. */
  predicate Read(c: Fields) {
    match c.state
    case Proposed => false
    case Countered => false
    case Agreed => false
    case Withdrawn => false
    case NoAgreement => c.revisions != []
    case _ => true
  }

  /** A contract no snapshot may hold: executing or over without a revision, withdrawn with one, or with a bad one. */
  ghost predicate Malformed(sha256: string -> string, e: Entry<Fields>) {
    if Read(e.item) then e.item.revisions == [] || AnyBad(sha256, e.key, e.item.revisions, |e.item.revisions|)
    else e.item.state.Withdrawn? && e.item.revisions != []
  }

  /** Something may still be said without a binding: a negotiation, or one that ended before the first freeze. */
  predicate MayStart(c: Fields) {
    c.state.Proposed? || c.state.Countered? || ((c.state.NoAgreement? || c.state.Withdrawn?) && c.revisions == [])
  }

  function BindingOf(r: Revision): string {
    "sha256:" + Stripped(r.digest)
  }

  /** The binding of the last revision of a contract that is read. */
  ghost predicate Latest(contracts: Contracts, i: int, claimed: string) {
    0 <= i < |contracts| && Read(contracts[i].item) && contracts[i].item.revisions != []
    && claimed == BindingOf(contracts[i].item.revisions[|contracts[i].item.revisions| - 1])
  }

  ghost predicate Earlier(contracts: Contracts, i: int, k: int, claimed: string) {
    0 <= i < |contracts| && Read(contracts[i].item) && 0 <= k < |contracts[i].item.revisions| - 1
    && claimed == BindingOf(contracts[i].item.revisions[k])
  }

  ghost predicate IsLatest(contracts: Contracts, claimed: string) {
    exists i :: Latest(contracts, i, claimed)
  }

  ghost predicate IsEarlier(contracts: Contracts, claimed: string) {
    exists i, k :: Earlier(contracts, i, k, claimed)
  }

  /** A contract may still come: one may start, or none is read. */
  ghost predicate RoomLeft(contracts: Contracts) {
    (exists i :: 0 <= i < |contracts| && MayStart(contracts[i].item))
    || forall i | 0 <= i < |contracts| :: !Read(contracts[i].item)
  }

  // ------------------------------------------------------- reading one of them

  function LatestView(e: Entry<Fields>): ContractView
    requires e.item.revisions != []
  {
    var r := e.item.revisions[|e.item.revisions| - 1];
    ContractView.Frozen(e.key, r.number, r.content, Stripped(r.digest))
  }

  function BindingsOf(rs: seq<Revision>): (r: seq<string>)
    ensures |r| == |rs| && forall k | 0 <= k < |rs| :: r[k] == BindingOf(rs[k])
  {
    if rs == [] then [] else BindingsOf(rs[..|rs| - 1]) + [BindingOf(rs[|rs| - 1])]
  }

  /** One revision more. */
  lemma ReadStep(sha256: string -> string, id: string, rs: seq<Revision>, k: nat, seen: Seen)
    requires 0 < k <= |rs|
    ensures var so := ReadRevisions(sha256, id, rs, k - 1, seen);
            ReadRevisions(sha256, id, rs, k, seen)
            == if so.Failure? then so
               else if Bad(sha256, id, rs, k - 1) then Failure(ContractMismatch)
               else if k == |rs| then
                 Success(so.value.(observed := so.value.observed + [ContractView.Frozen(id, rs[k - 1].number, rs[k - 1].content, Stripped(rs[k - 1].digest))]))
               else Success(so.value.(superseded := so.value.superseded + [BindingOf(rs[k - 1])]))
    ensures AnyBad(sha256, id, rs, k) <==> AnyBad(sha256, id, rs, k - 1) || Bad(sha256, id, rs, k - 1)
  {
    hide RevisionDigest;
  }

  lemma NothingRead(sha256: string -> string, id: string, rs: seq<Revision>, seen: Seen)
    ensures ReadRevisions(sha256, id, rs, 0, seen) == Success(seen.(superseded := seen.superseded + BindingsOf(rs[..0])))
    ensures !AnyBad(sha256, id, rs, 0)
  {
    assert rs[..0] == [] && seen.superseded + [] == seen.superseded;
  }

  lemma OneMoreBinding(rs: seq<Revision>, k: nat, before: seq<string>)
    requires 0 < k <= |rs|
    ensures before + BindingsOf(rs[..k - 1]) + [BindingOf(rs[k - 1])] == before + BindingsOf(rs[..k])
  {
    hide BindingOf;
    assert rs[..k][..k - 1] == rs[..k - 1];
  }

  lemma {:induction false} ReadsExact(sha256: string -> string, e: Entry<Fields>, k: nat, seen: Seen)
    requires k <= |e.item.revisions|
    ensures var rs := e.item.revisions;
            ReadRevisions(sha256, e.key, rs, k, seen)
            == if AnyBad(sha256, e.key, rs, k) then Failure(ContractMismatch)
               else if k < |rs| || k == 0 then Success(seen.(superseded := seen.superseded + BindingsOf(rs[..k])))
               else Success(seen.(superseded := seen.superseded + BindingsOf(rs[..k - 1]), observed := seen.observed + [LatestView(e)]))
  {
    hide RevisionDigest, Bad, AnyBad, ReadRevisions, BindingOf, BindingsOf, Stripped;
    var rs := e.item.revisions;
    if k == 0 {
      NothingRead(sha256, e.key, rs, seen);
    } else {
      ReadsExact(sha256, e, k - 1, seen);
      ReadStep(sha256, e.key, rs, k, seen);
      OneMoreBinding(rs, k, seen.superseded);
    }
  }

  lemma SeeExact(sha256: string -> string, e: Entry<Fields>, seen: Seen)
    ensures See(sha256, e.key, e.item, seen)
            == if Malformed(sha256, e) then Failure(ContractMismatch)
               else
                 var rs := e.item.revisions;
                 Success(Seen(seen.observed + (if Read(e.item) then [LatestView(e)] else []),
                              seen.superseded + (if Read(e.item) then BindingsOf(rs[..|rs| - 1]) else []),
                              seen.bootstrap || MayStart(e.item)))
  {
    hide RevisionDigest, ReadRevisions, AnyBad;
    ReadsExact(sha256, e, |e.item.revisions|, seen.(bootstrap := seen.bootstrap || Negotiating(e.item)));
    assert seen.observed + [] == seen.observed && seen.superseded + [] == seen.superseded;
  }

  // ------------------------------------------------------------ the whole scan

  ghost predicate AnyMalformed(sha256: string -> string, contracts: Contracts) {
    exists i :: 0 <= i < |contracts| && Malformed(sha256, contracts[i])
  }

  ghost predicate ShowsLatest(contracts: Contracts, observed: seq<ContractView>) {
    && (forall i | 0 <= i < |contracts| && Read(contracts[i].item) && contracts[i].item.revisions != [] :: LatestView(contracts[i]) in observed)
    && forall v | v in observed :: exists i :: Views(contracts, i, v)
  }

  ghost predicate Views(contracts: Contracts, i: int, v: ContractView) {
    0 <= i < |contracts| && Read(contracts[i].item) && contracts[i].item.revisions != [] && v == LatestView(contracts[i])
  }

  ghost predicate CollectedAll(contracts: Contracts, seen: Seen) {
    && ShowsLatest(contracts, seen.observed)
    && (forall s :: s in seen.superseded <==> IsEarlier(contracts, s))
    && (seen.bootstrap <==> exists i :: 0 <= i < |contracts| && MayStart(contracts[i].item))
  }

  /** A snapshot is refused exactly for a malformed contract, and otherwise all there is to see is seen. */
  lemma {:induction false} ScanExact(sha256: string -> string, contracts: Contracts)
    ensures if AnyMalformed(sha256, contracts) then SeeAll(sha256, contracts) == Failure(ContractMismatch)
            else SeeAll(sha256, contracts).Success? && CollectedAll(contracts, SeeAll(sha256, contracts).value)
  {
    hide See, Malformed;
    if contracts != [] {
      var before, last := contracts[..|contracts| - 1], contracts[|contracts| - 1];
      assert contracts == before + [last];
      ScanExact(sha256, before);
      AnyMalformedSnoc(sha256, before, last);
      if !AnyMalformed(sha256, before) {
        var seen := SeeAll(sha256, before).value;
        SeeExact(sha256, last, seen);
        if Read(last.item) && !Malformed(sha256, last) {
          ReadHasRevision(sha256, last);
        }
        if !Malformed(sha256, last) {
          CollectedSnoc(sha256, before, last, seen, SeeAll(sha256, contracts).value);
        }
      }
    }
  }

  lemma ReadHasRevision(sha256: string -> string, e: Entry<Fields>)
    requires !Malformed(sha256, e) && Read(e.item)
    ensures e.item.revisions != []
  {
  }

  lemma AnyMalformedSnoc(sha256: string -> string, before: Contracts, last: Entry<Fields>)
    ensures AnyMalformed(sha256, before + [last]) <==> AnyMalformed(sha256, before) || Malformed(sha256, last)
  {
    hide Malformed;
    var contracts := before + [last];
    assert contracts[|before|] == last;
    forall i | 0 <= i < |before| ensures contracts[i] == before[i] {
    }
  }

  lemma CollectedSnoc(sha256: string -> string, before: Contracts, last: Entry<Fields>, seen: Seen, after: Seen)
    requires CollectedAll(before, seen) && !Malformed(sha256, last)
    requires after == Seen(seen.observed + (if Read(last.item) && last.item.revisions != [] then [LatestView(last)] else []),
                           seen.superseded + (if Read(last.item) && last.item.revisions != [] then BindingsOf(last.item.revisions[..|last.item.revisions| - 1]) else []),
                           seen.bootstrap || MayStart(last.item))
    ensures CollectedAll(before + [last], after)
  {
    hide AnyBad, Read, MayStart, BindingOf, Stripped;
    LatestSnoc(before, last, seen.observed, after.observed);
    forall s ensures s in after.superseded <==> IsEarlier(before + [last], s) {
      EarlierSnoc(before, last, s);
    }
    var contracts := before + [last];
    assert contracts[|before|] == last;
    assert forall i | 0 <= i < |before| :: contracts[i] == before[i];
  }

  lemma LatestSnoc(before: Contracts, last: Entry<Fields>, observed: seq<ContractView>, after: seq<ContractView>)
    requires ShowsLatest(before, observed)
    requires after == observed + (if Read(last.item) && last.item.revisions != [] then [LatestView(last)] else [])
    ensures ShowsLatest(before + [last], after)
  {
    hide Read;
    var contracts := before + [last];
    assert contracts[|before|] == last;
    assert forall i | 0 <= i < |before| :: contracts[i] == before[i];
    forall v | v in after ensures exists i :: Views(contracts, i, v) {
      if v in observed {
        var i :| Views(before, i, v);
        assert Views(contracts, i, v);
      } else {
        assert Views(contracts, |before|, v);
      }
    }
  }

  lemma EarlierSnoc(before: Contracts, last: Entry<Fields>, s: string)
    ensures IsEarlier(before + [last], s)
            <==> IsEarlier(before, s)
                 || (Read(last.item) && last.item.revisions != [] && s in BindingsOf(last.item.revisions[..|last.item.revisions| - 1]))
  {
    hide Read, BindingOf;
    var contracts := before + [last];
    assert contracts[|before|] == last;
    assert forall i | 0 <= i < |before| :: contracts[i] == before[i];
    if IsEarlier(contracts, s) {
      var i, k :| Earlier(contracts, i, k, s);
      if i < |before| {
        assert Earlier(before, i, k, s);
      } else {
        assert BindingsOf(last.item.revisions[..|last.item.revisions| - 1])[k] == s;
      }
    }
    if IsEarlier(before, s) {
      var i, k :| Earlier(before, i, k, s);
      assert Earlier(contracts, i, k, s);
    }
    if Read(last.item) && last.item.revisions != [] && s in BindingsOf(last.item.revisions[..|last.item.revisions| - 1]) {
      var k :| 0 <= k < |last.item.revisions| - 1 && BindingsOf(last.item.revisions[..|last.item.revisions| - 1])[k] == s;
      assert Earlier(contracts, |before|, k, s);
    }
  }

  // --------------------------------------------------- what is then accepted

  /** No digest looks like one with its algorithm in front. */
  ghost predicate Untagged(sha256: string -> string) {
    forall s :: !(SHA_PREFIX <= sha256(s))
  }

  lemma DigestStripped(sha256: string -> string, id: string, r: Revision)
    requires Untagged(sha256) && RevisionDigest(sha256, id, r.number, r.content) == Success(Stripped(r.digest))
    ensures Stripped(Stripped(r.digest)) == Stripped(r.digest)
  {
    hide Canonical;
  }

  /** The last revision of a contract in order makes a view in order, carrying its binding. */
  lemma LatestInOrder(sha256: string -> string, e: Entry<Fields>)
    requires Untagged(sha256) && !Malformed(sha256, e) && Read(e.item) && e.item.revisions != []
    ensures Genuine(sha256, LatestView(e))
    ensures forall claimed :: CarriedBy(sha256, LatestView(e), claimed) <==> claimed == BindingOf(e.item.revisions[|e.item.revisions| - 1])
  {
    hide RevisionDigest;
    var n := |e.item.revisions| - 1;
    assert !Bad(sha256, e.key, e.item.revisions, n);
    DigestStripped(sha256, e.key, e.item.revisions[n]);
  }

  lemma CarriedIsLatest(sha256: string -> string, contracts: Contracts, seen: Seen, claimed: string)
    requires Untagged(sha256) && !AnyMalformed(sha256, contracts) && ShowsLatest(contracts, seen.observed)
    ensures (exists f :: f in seen.observed && CarriedBy(sha256, f, claimed)) <==> IsLatest(contracts, claimed)
    ensures forall f | f in seen.observed :: f.Frozen? && Genuine(sha256, f)
  {
    hide Malformed, Read, RevisionDigest, CarriedBy, Genuine;
    forall f | f in seen.observed ensures exists i :: Views(contracts, i, f) {
    }
    forall i, f | Views(contracts, i, f)
      ensures f.Frozen? && Genuine(sha256, f) && (CarriedBy(sha256, f, claimed) <==> Latest(contracts, i, claimed))
    {
      LatestInOrder(sha256, contracts[i]);
    }
    if IsLatest(contracts, claimed) {
      var i :| Latest(contracts, i, claimed);
      assert Views(contracts, i, LatestView(contracts[i]));
    }
  }

  lemma SomeMember(all: seq<string>)
    ensures all != [] ==> exists s :: s in all
  {
    if all != [] {
      assert all[0] in all;
    }
  }

  /** Nothing observed means that no contract is read. */
  lemma NothingObserved(contracts: Contracts, seen: Seen)
    requires CollectedAll(contracts, seen) && forall i | 0 <= i < |contracts| && Read(contracts[i].item) :: contracts[i].item.revisions != []
    ensures seen.observed == [] <==> forall i | 0 <= i < |contracts| :: !Read(contracts[i].item)
    ensures seen.observed == [] ==> seen.superseded == []
  {
    hide Read, BindingOf;
    if seen.observed != [] {
      assert seen.observed[0] in seen.observed;
      var i :| Views(contracts, i, seen.observed[0]);
    }
    if seen.observed == [] {
      SomeMember(seen.superseded);
    }
  }

  /** What a scan collected is shown, whichever form the view takes. */
  lemma ShownForms(sha256: string -> string, seen: Seen, claimed: string)
    requires seen.observed == [] ==> seen.superseded == []
    requires forall f | f in seen.observed :: f.Frozen?
    ensures Check(sha256, Shown(seen), claimed) == Check(sha256, Observed(seen.observed, seen.superseded, seen.bootstrap), claimed)
  {
    hide RevisionDigest, Check;
    if seen.observed == [] {
      ShortcutsAgree(sha256, seen.bootstrap, Bootstrap, claimed);
    } else if |seen.observed| == 1 && seen.superseded == [] && !seen.bootstrap {
      ShortcutsAgree(sha256, false, seen.observed[0], claimed);
      assert seen.observed == [seen.observed[0]];
    }
  }

  /**
   Any snapshot, made by the engine or not. In another session nothing is read, and only the
   empty claim is accepted. Otherwise the snapshot is refused exactly when it holds a malformed
   contract; and if it is not, a claim is accepted exactly when it is no earlier revision and is
   a latest one, or is empty while there is room; any other claim waits while there is room.
   */
  lemma AnySnapshot(sha256: string -> string, inSession: bool, contracts: Contracts, claimed: string)
    requires Untagged(sha256)
    ensures var view := View(sha256, inSession, contracts);
            if !inSession then
              view.Success? && Check(sha256, view.value, claimed) == if claimed == "" then Success(Unit) else Failure(ContractPending)
            else if AnyMalformed(sha256, contracts) then view == Failure(ContractMismatch)
            else
              view.Success?
              && Check(sha256, view.value, claimed)
                 == if IsEarlier(contracts, claimed) then Failure(ContractMismatch)
                    else if IsLatest(contracts, claimed) then Success(Unit)
                    else if !RoomLeft(contracts) then Failure(ContractMismatch)
                    else if claimed == "" then Success(Unit) else Failure(ContractPending)
  {
    hide RevisionDigest, SeeAll, Malformed, Read, MayStart, Shown, Check, CarriedBy, Genuine, ShowsLatest, IsEarlier, IsLatest;
    if !inSession {
      PendingWaits(sha256, claimed);
    } else {
      ScanExact(sha256, contracts);
      if !AnyMalformed(sha256, contracts) {
        var seen := SeeAll(sha256, contracts).value;
        forall i | 0 <= i < |contracts| && Read(contracts[i].item) ensures contracts[i].item.revisions != [] {
          ReadHasRevision(sha256, contracts[i]);
        }
        CarriedIsLatest(sha256, contracts, seen, claimed);
        NothingObserved(contracts, seen);
        ShownForms(sha256, seen, claimed);
        var general := Observed(seen.observed, seen.superseded, seen.bootstrap);
        CheckExact(sha256, general, claimed);
        assert ShownBy(general) == seen.observed;
      }
    }
  }

  lemma PendingWaits(sha256: string -> string, claimed: string)
    ensures Check(sha256, Pending, claimed) == if claimed == "" then Success(Unit) else Failure(ContractPending)
  {
  }
}
