/**
 The guardian's session table (`src/secure/session.rs`): pending hellos, active sessions
 and the history of answered hellos, updated in place by every handshake and message step.
 */
module Managers {
  import opened Collections
  import opened Wrappers
  import opened Text
  import opened Secure
  import opened Crypto
  import opened Envelope
  import opened Sessions
  import opened Handshakes
  import opened HelloHistory
  import opened HelloRuns
  import opened PendingBound

  /** No hello has two answering sessions. */
  ghost predicate OneAnswerEach(active: map<string, Session>) {
    forall sid, sid' | sid in active && sid' in active && !active[sid].initiator
                       && Answers(active[sid'], active[sid].hacpSession, active[sid].hello, active[sid].pin) :: sid == sid'
  }

  lemma KeptAnswers(active: map<string, Session>, gone: set<u64>)
    requires OneAnswerEach(active)
    ensures OneAnswerEach(Kept(active, gone))
  {
  }

  /** The first hello in the queue that an ack is signed for. */
  ghost predicate FirstSigned(suite: Suite, session: string, ack: SecureEnvelope, pending: seq<Pending>, i: nat) {
    i < |pending| && SignedFor(suite, session, ack, pending[i])
    && forall j | 0 <= j < i :: !SignedFor(suite, session, ack, pending[j])
  }

  /** What every operation keeps of the table: its numbering, the limit, and how its entries came about. */
  ghost predicate TableOk(suite: Suite, local: string, pending: seq<Pending>, active: map<string, Session>, order: u64) {
    && Numbered(pending, active, order) && WithinLimit(pending, active) && OneAnswerEach(active)
    && (forall p | p in pending :: OwnHello(suite, local, p))
    && forall sid | sid in active :: Vouched(suite, local, active[sid])
  }

  lemma KeptStay(active: map<string, Session>, gone: set<u64>)
    ensures forall sid | sid in Kept(active, gone) :: sid in active && Kept(active, gone)[sid] == active[sid]
  {
  }

  lemma DropOk(
      suite: Suite, local: string, pending: seq<Pending>, active: map<string, Session>, order: u64, gone: set<u64>)
    requires TableOk(suite, local, pending, active, order)
    ensures TableOk(suite, local, Without(pending, gone), Kept(active, gone), order)
  {
    hide Numbered, WithinLimit, OneAnswerEach, OwnHello, Vouched, Without, Kept;
    DroppedOk(pending, active, order, gone);
    KeptStay(active, gone);
    DroppedWithinLimit(pending, active, order, gone);
    KeptAnswers(active, gone);
    WithoutMembers(pending, gone);
  }

  /** The lower of the two lowest numbers is the lowest of all. */
  lemma LowestOverall(
      pending: seq<Pending>, active: map<string, Session>, peer: string, hello: Option<nat>, answer: Option<string>)
    requires Waiting(pending, active, peer) != {}
    requires match hello
             case None => forall i | 0 <= i < |pending| :: pending[i].hello.to != peer
             case Some(k) => k < |pending| && pending[k].hello.to == peer
                             && forall i | 0 <= i < |pending| && pending[i].hello.to == peer :: pending[k].order <= pending[i].order
    requires match answer
             case None => forall sid | sid in active :: !Waits(active[sid], peer)
             case Some(k) => k in active && Waits(active[k], peer)
                             && forall sid | sid in active && Waits(active[sid], peer) :: active[k].order <= active[sid].order
    ensures hello.Some? || answer.Some?
    ensures hello.Some? && (answer.None? || pending[hello.value].order < active[answer.value].order) ==>
              Lowest(pending[hello.value].order, Waiting(pending, active, peer))
    ensures answer.Some? && !(hello.Some? && pending[hello.value].order < active[answer.value].order) ==>
              Lowest(active[answer.value].order, Waiting(pending, active, peer))
  {
    SomethingWaits(pending, active, peer);
    if hello.Some? {
      assert pending[hello.value] in pending;
    }
  }

  lemma Numbering(suite: Suite, local: string, pending: seq<Pending>, active: map<string, Session>, order: u64)
    requires TableOk(suite, local, pending, active, order)
    ensures Numbered(pending, active, order)
  {
  }

  lemma OwnPending(suite: Suite, local: string, pending: seq<Pending>, active: map<string, Session>, order: u64, p: Pending)
    requires TableOk(suite, local, pending, active, order) && p in pending
    ensures OwnHello(suite, local, p)
  {
  }

  ghost predicate Lowest(n: u64, all: set<u64>) {
    n in all && forall x | x in all :: n <= x
  }

  /** One eviction: less waits than before, and trimming what is left trims the whole. */
  lemma OneLess(
      pending: seq<Pending>, active: map<string, Session>, order: u64, peer: string, oldest: u64,
      pending': seq<Pending>, active': map<string, Session>)
    requires Numbered(pending, active, order) && |Waiting(pending, active, peer)| >= PENDING_LIMIT
    requires Lowest(oldest, Waiting(pending, active, peer))
    requires pending' == Without(pending, {oldest}) && active' == Kept(active, {oldest})
    ensures |Waiting(pending', active', peer)| < |Waiting(pending, active, peer)|
    ensures forall p, a :: Trimmed(pending', active', p, a, peer) ==> Trimmed(pending, active, p, a, peer)
  {
    hide Numbered, Waiting, Trimmed, Without, Kept;
    WaitingDropped(pending, active, {oldest}, peer);
    forall p, a | Trimmed(pending', active', p, a, peer) ensures Trimmed(pending, active, p, a, peer) {
      TrimStep(pending, active, order, peer, oldest, p, a);
    }
  }

  method LowestHello(pending: seq<Pending>, peer: string) returns (r: Option<nat>)
    ensures r.None? ==> forall i | 0 <= i < |pending| :: pending[i].hello.to != peer
    ensures r.Some? ==> r.value < |pending| && pending[r.value].hello.to == peer
    ensures r.Some? ==> forall i | 0 <= i < |pending| && pending[i].hello.to == peer :: pending[r.value].order <= pending[i].order
  {
    r := None;
    for i := 0 to |pending|
      invariant r.None? ==> forall j | 0 <= j < i :: pending[j].hello.to != peer
      invariant r.Some? ==> r.value < |pending| && pending[r.value].hello.to == peer
      invariant r.Some? ==> forall j | 0 <= j < i && pending[j].hello.to == peer :: pending[r.value].order <= pending[j].order
    {
      if pending[i].hello.to == peer && (r.None? || pending[i].order < pending[r.value].order) {
        r := Some(i);
      }
    }
  }

  method LowestAnswer(active: map<string, Session>, peer: string) returns (r: Option<string>)
    ensures r.None? ==> forall sid | sid in active :: !Waits(active[sid], peer)
    ensures r.Some? ==> r.value in active && Waits(active[r.value], peer)
    ensures r.Some? ==> forall sid | sid in active && Waits(active[sid], peer) :: active[r.value].order <= active[sid].order
  {
    r := None;
    var rest := active.Keys;
    while rest != {}
      invariant rest <= active.Keys
      invariant r.None? ==> forall sid | sid in active && sid !in rest :: !Waits(active[sid], peer)
      invariant r.Some? ==> r.value in active && Waits(active[r.value], peer)
      invariant r.Some? ==> forall sid | sid in active && sid !in rest && Waits(active[sid], peer) ::
                              active[r.value].order <= active[sid].order
    {
      var sid :| sid in rest;
      if Waits(active[sid], peer) && (r.None? || active[sid].order < active[r.value].order) {
        r := Some(sid);
      }
      rest := rest - {sid};
    }
  }

  function NotOf(pending: seq<Pending>, context: string): seq<Pending> {
    if pending == [] then []
    else (if pending[0].hacpSession == context then [] else [pending[0]]) + NotOf(pending[1..], context)
  }

  /** The numbers of everything that belongs to one context. */
  function OfContext(pending: seq<Pending>, active: map<string, Session>, context: string): set<u64> {
    (set p | p in pending && p.hacpSession == context :: p.order)
    + (set sid | sid in active && active[sid].hacpSession == context :: active[sid].order)
  }

  lemma {:induction false} NotOfIsWithout(pending: seq<Pending>, context: string, gone: set<u64>)
    requires forall p | p in pending :: p.order in gone <==> p.hacpSession == context
    ensures NotOf(pending, context) == Without(pending, gone)
  {
    if pending != [] {
      assert forall p | p in pending[1..] :: p in pending;
      NotOfIsWithout(pending[1..], context, gone);
    }
  }

  /** Numbers tell hellos and sessions apart, so dropping a context drops its numbers. */
  lemma ContextDropped(pending: seq<Pending>, active: map<string, Session>, order: u64, context: string)
    requires Numbered(pending, active, order)
    ensures var gone := OfContext(pending, active, context);
            && NotOf(pending, context) == Without(pending, gone)
            && (map sid | sid in active && active[sid].hacpSession != context :: active[sid]) == Kept(active, gone)
  {
    var gone := OfContext(pending, active, context);
    forall p | p in pending ensures p.order in gone <==> p.hacpSession == context {
      if p.order in gone {
        var q :| q in pending && q.hacpSession == context && q.order == p.order;
        OneHelloPerNumber(pending, active, order, p, q);
      }
    }
    NotOfIsWithout(pending, context, gone);
    forall sid | sid in active ensures active[sid].order in gone <==> active[sid].hacpSession == context {
    }
  }

  lemma OneHelloPerNumber(pending: seq<Pending>, active: map<string, Session>, order: u64, p: Pending, q: Pending)
    requires Numbered(pending, active, order) && p in pending && q in pending && p.order == q.order
    ensures p == q
  {
    var i :| 0 <= i < |pending| && pending[i] == p;
    var j :| 0 <= j < |pending| && pending[j] == q;
  }

  lemma TrimmedOk(
      suite: Suite, local: string, pending: seq<Pending>, active: map<string, Session>, order: u64, peer: string,
      pending': seq<Pending>, active': map<string, Session>)
    requires TableOk(suite, local, pending, active, order) && Trimmed(pending, active, pending', active', peer)
    ensures TableOk(suite, local, pending', active', order)
    ensures active'.Keys <= active.Keys && forall sid | sid in active' :: active'[sid] == active[sid]
  {
    hide TableOk, Waiting, Without;
    DropOk(suite, local, pending, active, order, Waiting(pending, active, peer) - Waiting(pending', active', peer));
  }

  /** A hello joins the queue under a new number. */
  lemma PushOk(suite: Suite, local: string, pending: seq<Pending>, active: map<string, Session>, order: u64, p: Pending)
    requires TableOk(suite, local, pending, active, order) && p.order > order && OwnHello(suite, local, p)
    requires |Waiting(pending, active, p.hello.to)| < PENDING_LIMIT
    ensures TableOk(suite, local, pending + [p], active, p.order)
  {
    hide OwnHello, WithinLimit, Numbered, OneAnswerEach;
    PushWithinLimit(pending, active, p);
    NumberedPush(pending, active, order, p);
  }

  lemma NumberedPush(pending: seq<Pending>, active: map<string, Session>, order: u64, p: Pending)
    requires Numbered(pending, active, order) && p.order > order
    ensures Numbered(pending + [p], active, p.order)
  {
    var all := pending + [p];
    assert forall q :: q in all <==> q in pending || q == p;
    forall i, j | 0 <= i < j < |all| ensures all[i].order < all[j].order {
      assert all[i] in pending;
    }
  }

  lemma NumberedInsert(pending: seq<Pending>, active: map<string, Session>, order: u64, sid: string, s: Session)
    requires Numbered(pending, active, order) && s.order > order
    ensures Numbered(pending, active[sid := s], s.order)
  {
  }

  lemma PushWithinLimit(pending: seq<Pending>, active: map<string, Session>, p: Pending)
    requires WithinLimit(pending, active) && |Waiting(pending, active, p.hello.to)| < PENDING_LIMIT
    ensures WithinLimit(pending + [p], active)
  {
    hide Waiting;
    var pending' := pending + [p];
    forall peer: string ensures |Waiting(pending', active, peer)| <= PENDING_LIMIT {
      WaitingPushed(pending, active, p, peer);
      SubsetCount(Waiting(pending', active, peer),
                    Waiting(pending, active, peer) + (if p.hello.to == peer then {p.order} else {}));
    }
  }

  lemma WaitingPushed(pending: seq<Pending>, active: map<string, Session>, p: Pending, peer: string)
    ensures Waiting(pending + [p], active, peer) <= Waiting(pending, active, peer) + (if p.hello.to == peer then {p.order} else {})
  {
  }

  lemma WaitingInserted(pending: seq<Pending>, active: map<string, Session>, sid: string, s: Session, peer: string)
    ensures Waiting(pending, active[sid := s], peer)
            <= Waiting(pending, active, peer) + (if Waits(s, peer) then {s.order} else {})
  {
  }

  /** An answer that has no equal joins the table under a new number. */
  lemma InsertOk(
      suite: Suite, local: string, pending: seq<Pending>, active: map<string, Session>, order: u64, sid: string, s: Session)
    requires TableOk(suite, local, pending, active, order) && s.order > order && !s.initiator && Vouched(suite, local, s)
    requires |Waiting(pending, active, s.peer)| < PENDING_LIMIT
    requires forall sid | sid in active :: !Answers(active[sid], s.hacpSession, s.hello, s.pin)
    ensures TableOk(suite, local, pending, active[sid := s], s.order)
  {
    hide OwnHello, WithinLimit, Numbered, Vouched;
    InsertWithinLimit(pending, active, sid, s);
    NumberedInsert(pending, active, order, sid, s);
    assert OneAnswerEach(active[sid := s]);
  }

  lemma InsertWithinLimit(pending: seq<Pending>, active: map<string, Session>, sid: string, s: Session)
    requires WithinLimit(pending, active) && |Waiting(pending, active, s.peer)| < PENDING_LIMIT
    ensures WithinLimit(pending, active[sid := s])
  {
    hide Waiting;
    var active' := active[sid := s];
    forall peer: string ensures |Waiting(pending, active', peer)| <= PENDING_LIMIT {
      WaitingInserted(pending, active, sid, s, peer);
      SubsetCount(Waiting(pending, active', peer), Waiting(pending, active, peer) + (if Waits(s, peer) then {s.order} else {}));
    }
  }

  /** A hello that was answered leaves the queue and becomes a session under its own number. */
  lemma MoveOk(
      suite: Suite, local: string, pending: seq<Pending>, active: map<string, Session>, order: u64, i: nat, sid: string, s: Session)
    requires TableOk(suite, local, pending, active, order) && i < |pending|
    requires s.order == pending[i].order && s.initiator && s.state.Established? && Vouched(suite, local, s)
    ensures TableOk(suite, local, pending[..i] + pending[i + 1..], active[sid := s], order)
  {
    hide OwnHello, WithinLimit, TableOk, Vouched;
    Numbering(suite, local, pending, active, order);
    PendingOne(pending, active, order, i);
    DropOk(suite, local, pending, active, order, {s.order});
    WithoutMembers(pending, {s.order});
    ReplaceOk(suite, local, pending[..i] + pending[i + 1..], active, order, sid, s);
  }

  /** A confirmed session of its own number may take any place. */
  lemma ReplaceOk(
      suite: Suite, local: string, pending: seq<Pending>, active: map<string, Session>, order: u64, sid: string, s: Session)
    requires TableOk(suite, local, pending, active, order) && s.order <= order && Vouched(suite, local, s)
    requires forall p | p in pending :: p.order != s.order
    requires forall other | other in active && other != sid :: active[other].order != s.order
    requires s.state.Established? || (sid in active && Waits(active[sid], s.peer) && active[sid].order == s.order)
    requires s.initiator || (sid in active && !active[sid].initiator
                             && Answers(active[sid], s.hacpSession, s.hello, s.pin))
    ensures TableOk(suite, local, pending, active[sid := s], order)
  {
    hide OwnHello, WithinLimit, Vouched, Numbered, OneAnswerEach, Answers, Waits;
    ReplaceWithinLimit(pending, active, sid, s);
    ReplaceNumbered(pending, active, order, sid, s);
    ReplaceAnswers(active, sid, s);
  }

  lemma ReplaceNumbered(pending: seq<Pending>, active: map<string, Session>, order: u64, sid: string, s: Session)
    requires Numbered(pending, active, order) && s.order <= order && forall p | p in pending :: p.order != s.order
    requires forall other | other in active && other != sid :: active[other].order != s.order
    ensures Numbered(pending, active[sid := s], order)
  {
  }

  lemma ReplaceAnswers(active: map<string, Session>, sid: string, s: Session)
    requires OneAnswerEach(active)
    requires s.initiator || (sid in active && !active[sid].initiator
                             && Answers(active[sid], s.hacpSession, s.hello, s.pin))
    ensures OneAnswerEach(active[sid := s])
  {
  }

  lemma ReplaceWithinLimit(pending: seq<Pending>, active: map<string, Session>, sid: string, s: Session)
    requires WithinLimit(pending, active)
    requires s.state.Established? || (sid in active && Waits(active[sid], s.peer) && active[sid].order == s.order)
    ensures WithinLimit(pending, active[sid := s])
  {
    var active' := active[sid := s];
    forall peer: string ensures |Waiting(pending, active', peer)| <= PENDING_LIMIT {
      WaitingInserted(pending, active, sid, s, peer);
      SubsetCount(Waiting(pending, active', peer), Waiting(pending, active, peer));
    }
  }

  /** Of one session only the counter moves, or the peer confirms it. */
  lemma SameEntryOk(
      suite: Suite, local: string, pending: seq<Pending>, active: map<string, Session>, order: u64, sid: string, s: Session)
    requires TableOk(suite, local, pending, active, order) && sid in active
    requires s == active[sid].(sendSeq := s.sendSeq) || s == Confirmed(active[sid])
    ensures TableOk(suite, local, pending, active[sid := s], order)
  {
    hide OwnHello, WithinLimit, HelloVouched, AckVouched;
    assert Vouched(suite, local, active[sid]);
    ReplaceOk(suite, local, pending, active, order, sid, s);
  }

  lemma MadeHello(
      suite: Suite, local: string, identity: Bytes, peer: string, session: string, scalar: Option<Bytes>, nonce: Option<Bytes>)
    ensures var made := MakeHello(suite, local, identity, peer, session, scalar, nonce);
            made.Success? ==>
              (scalar.Some? && made.value.to == peer
               && forall pin, order :: OwnHello(suite, local, Pending(made.value, session, pin, scalar.value, order)))
  {
  }

  lemma AnswerFor(
      suite: Suite, local: string, identity: Bytes, session: string, hello: SecureEnvelope, pin: Bytes,
      scalar: Option<Bytes>, nonce: Option<Bytes>)
    ensures var made := Answer(suite, local, identity, session, hello, pin, scalar, nonce);
            made.Success? ==>
              var s := made.value.1;
              s.peer == hello.from && !s.initiator && s.hacpSession == session && s.hello == hello && s.pin == pin
  {
  }

  lemma AcceptableSid(suite: Suite, local: string, session: string, ack: SecureEnvelope)
    ensures Acceptable(suite, local, session, ack).Success? ==> ack.sid == Some(Acceptable(suite, local, session, ack).value)
  {
  }

  lemma CompletionFor(suite: Suite, local: string, session: string, ack: SecureEnvelope, p: Pending)
    ensures var made := Completion(suite, local, session, ack, p);
            made.Success? ==> made.value.1.order == p.order && made.value.1.initiator && made.value.1.state.Established?
  {
  }

  lemma LastNumberRefused(suite: Suite, s: Session, env: SecureEnvelope)
    ensures env.seq_ == Some(U64_MAX) ==> OpenVerified(suite, s, env) == Failure(SessionExhausted)
  {
  }

  lemma {:induction false} NotOfMembers(pending: seq<Pending>, context: string)
    ensures forall p :: p in NotOf(pending, context) <==> p in pending && p.hacpSession != context
  {
    if pending != [] {
      NotOfMembers(pending[1..], context);
      assert forall p :: p in pending <==> p == pending[0] || p in pending[1..];
    }
  }

  // ------------------------------------------------------- effects of a step

  datatype Table = Table(pending: seq<Pending>, active: map<string, Session>, order: u64)

  ghost predicate Answered(active: map<string, Session>, session: string, hello: SecureEnvelope, pin: Bytes) {
    exists sid :: sid in active && Answers(active[sid], session, hello, pin)
  }

  /** What answering an authentic hello returns and does. */
  ghost predicate Responds(
    session: string, hello: SecureEnvelope, pin: Bytes, answer: Result<(string, Session), SecureError>,
    before: Table, after: Table, r: Result<SecureEnvelope, SecureError>)
  {
    if Answered(before.active, session, hello, pin) then
      after == before && exists sid :: sid in before.active && Answers(before.active[sid], session, hello, pin)
                                       && r == Success(before.active[sid].ack)
    else if answer.Failure? then after == before && r == Failure(answer.error)
    else if before.order == U64_MAX then after == before && r == Failure(SessionExhausted)
    else
      var (sid, s) := answer.value;
      && r == Success(s.ack) && after.order == before.order + 1
      && exists room :: Trimmed(before.pending, before.active, after.pending, room, hello.from)
                        && after.active == room[sid := s.(order := after.order)]
  }

  /** What completing a handshake with an acceptable ack returns and does. */
  ghost predicate Completes(
    suite: Suite, local: string, session: string, ack: SecureEnvelope, before: Table, after: Table, r: Result<string, SecureError>)
    requires ack.sid.Some?
  {
    if ack.sid.value in before.active && Completed(before.active[ack.sid.value], session, ack) then
      after == before && r == Success(ack.sid.value)
    else if forall p | p in before.pending :: !SignedFor(suite, session, ack, p) then
      after == before && r == Failure(BadHandshakeSignature)
    else
      exists i: nat :: FirstSigned(suite, session, ack, before.pending, i)
                  && match Completion(suite, local, session, ack, before.pending[i])
                     case Failure(e) => after == before && r == Failure(e)
                     case Success(done) =>
                       r == Success(done.0)
                       && after == Table(before.pending[..i] + before.pending[i + 1..], before.active[done.0 := done.1], before.order)
  }

  class SessionManager {
    const suite: Suite
    const local: string
    const identity: Bytes
    var pending: seq<Pending>
    var active: map<string, Session>
    var seenHellos: set<Key>
    var seenHelloOrder: seq<Key>
    var order: u64

    ghost predicate Valid()
      reads this
    {
      && TableOk(suite, local, pending, active, order)
      && HistoryOk(seenHelloOrder) && (forall key :: key in seenHellos <==> key in seenHelloOrder)
    }

    constructor (suite: Suite, local: string, identity: Bytes)
      requires Urn(local)
      ensures Valid() && this.suite == suite && this.local == local && this.identity == identity
      ensures pending == [] && active == map[] && seenHelloOrder == [] && order == 0
    {
      this.suite, this.local, this.identity := suite, local, identity;
      pending, active, seenHellos, seenHelloOrder, order := [], map[], {}, [], 0;
    }

    method NextOrder() returns (r: Result<u64, SecureError>)
      requires Valid()
      modifies this`order
      ensures Valid()
      ensures r == if old(order) == U64_MAX then Failure(SessionExhausted) else Success(old(order) + 1)
      ensures order == if r.Success? then r.value else old(order)
    {
      if order == U64_MAX {
        return Failure(SessionExhausted);
      }
      order := order + 1;
      r := Success(order);
    }

    /** Drops the one unfinished handshake with the lowest order number. */
    method EvictOldest(peer: string) returns (ghost oldest: u64)
      requires Valid() && |Waiting(pending, active, peer)| >= PENDING_LIMIT
      modifies this`pending, this`active
      ensures Valid()
      ensures Lowest(oldest, old(Waiting(pending, active, peer)))
      ensures pending == Without(old(pending), {oldest}) && active == Kept(old(active), {oldest})
    {
      hide Without, Kept, TableOk, Lowest, HistoryOk, Waiting;
      var hello := LowestHello(pending, peer);
      var answer := LowestAnswer(active, peer);
      LowestOverall(pending, active, peer, hello, answer);
      Numbering(suite, local, pending, active, order);
      if hello.Some? && (answer.None? || pending[hello.value].order < active[answer.value].order) {
        oldest := pending[hello.value].order;
        DropOk(suite, local, pending, active, order, {oldest});
        PendingOne(pending, active, order, hello.value);
        pending := pending[..hello.value] + pending[hello.value + 1..];
      } else {
        // With at least four unfinished handshakes one of the two was found.
        oldest := active[answer.value].order;
        DropOk(suite, local, pending, active, order, {oldest});
        KeptOne(pending, active, order, answer.value);
        active := active - {answer.value};
      }
    }

    /** Makes room for one more: of four unfinished handshakes with a peer the newest three stay. */
    method BoundPending(peer: string)
      requires Valid()
      modifies this`pending, this`active
      ensures Valid() && |Waiting(pending, active, peer)| < PENDING_LIMIT
      ensures Trimmed(old(pending), old(active), pending, active, peer)
    {
      hide TableOk, Numbered, Waiting, Trimmed, HistoryOk, Lowest, Without, Kept;
      ghost var pending0, active0 := pending, active;
      while true
        invariant Valid()
        invariant forall p, a :: Trimmed(pending, active, p, a, peer) ==> Trimmed(pending0, active0, p, a, peer)
        decreases |Waiting(pending, active, peer)|
      {
        var hellos := set i | 0 <= i < |pending| && pending[i].hello.to == peer;
        var answers := set sid | sid in active && Waits(active[sid], peer);
        Numbering(suite, local, pending, active, order);
        CountIsWaiting(pending, active, order, peer, hellos, answers);
        if |hellos| + |answers| < PENDING_LIMIT {
          break;
        }
        ghost var p, a := pending, active;
        var oldest := EvictOldest(peer);
        OneLess(p, a, order, peer, oldest, pending, active);
      }
      TrimNothing(pending, active, peer);
    }

    function Snapshot(): Table
      reads this
    {
      Table(pending, active, order)
    }

    /** Sends a hello, at the cost of the oldest unfinished handshake when four are under way. */
    method Initiate(peer: string, session: string, pin: Bytes, scalar: Option<Bytes>, nonce: Option<Bytes>)
      returns (r: Result<SecureEnvelope, SecureError>)
      requires Valid()
      modifies this`pending, this`active, this`order
      ensures Valid()
      ensures seenHelloOrder == HistoryAfter(suite, local, old(seenHelloOrder), Request.Initiating)
      ensures var made := MakeHello(suite, local, identity, peer, session, scalar, nonce);
              if made.Failure? then r == Failure(made.error) && Snapshot() == old(Snapshot())
              else if old(order) == U64_MAX then r == Failure(SessionExhausted) && Snapshot() == old(Snapshot())
              else
                r == made && order == old(order) + 1 && pending != []
                && Trimmed(old(pending), old(active), pending[..|pending| - 1], active, peer)
                && pending[|pending| - 1] == Pending(r.value, session, pin, scalar.value, order)
    {
      hide TableOk, Trimmed, Waiting, HistoryOk, OwnHello, MakeHello;
      MadeHello(suite, local, identity, peer, session, scalar, nonce);
      var hello :- MakeHello(suite, local, identity, peer, session, scalar, nonce);
      ghost var before := Snapshot();
      var number :- NextOrder();
      BoundPending(peer);
      TrimmedOk(suite, local, before.pending, before.active, before.order, peer, pending, active);
      var p := Pending(hello, session, pin, scalar.value, number);
      PushOk(suite, local, pending, active, before.order, p);
      pending := pending + [p];
      r := Success(hello);
    }

    method RememberHello(key: Key)
      requires Valid()
      modifies this`seenHellos, this`seenHelloOrder
      ensures Valid() && seenHelloOrder == Remember(old(seenHelloOrder), key)
    {
      hide TableOk;
      RememberOk(seenHelloOrder, key);
      if key in seenHellos {
        return;
      }
      ghost var queue := seenHelloOrder + [key];
      seenHellos := seenHellos + {key};
      seenHelloOrder := seenHelloOrder + [key];
      while |seenHelloOrder| > SEEN_HELLO_LIMIT
        invariant |queue| - 1 <= |seenHelloOrder| <= |queue| && |seenHelloOrder| >= |Last(queue, SEEN_HELLO_LIMIT)|
        invariant seenHelloOrder == Last(queue, |seenHelloOrder|)
        invariant forall k :: k in seenHellos <==> k in seenHelloOrder
        invariant forall i, j | 0 <= i < j < |seenHelloOrder| :: seenHelloOrder[i] != seenHelloOrder[j]
      {
        var oldest := seenHelloOrder[0];
        seenHelloOrder := seenHelloOrder[1..];
        seenHellos := seenHellos - {oldest};
      }
    }

    /** Answers a hello; the same hello gets the same answer while its session lasts. */
    method Respond(session: string, hello: SecureEnvelope, pin: Bytes, scalar: Option<Bytes>, nonce: Option<Bytes>)
      returns (r: Result<SecureEnvelope, SecureError>)
      requires Valid()
      modifies this
      ensures Valid()
      ensures seenHelloOrder == HistoryAfter(suite, local, old(seenHelloOrder), Request.Answering(session, hello, pin))
      ensures match Authentic(suite, local, session, hello, pin)
              case Failure(e) => r == Failure(e) && Snapshot() == old(Snapshot()) && seenHelloOrder == old(seenHelloOrder)
              case Success(sig) =>
                && seenHelloOrder == Remember(old(seenHelloOrder), (session, sig))
                && Responds(session, hello, pin, Answer(suite, local, identity, session, hello, pin, scalar, nonce),
                            old(Snapshot()), Snapshot(), r)
    {
      hide TableOk, Trimmed, Waiting, HistoryOk, OwnHello, Vouched, Answer, Authentic;
      var sig :- Authentic(suite, local, session, hello, pin);
      RememberHello((session, sig));
      if sid :| sid in active && Answers(active[sid], session, hello, pin) {
        return Success(active[sid].ack);
      }
      AnswerFor(suite, local, identity, session, hello, pin, scalar, nonce);
      var answer :- Answer(suite, local, identity, session, hello, pin, scalar, nonce);
      var (sid, s) := answer;
      ghost var before := Snapshot();
      var number :- NextOrder();
      BoundPending(hello.from);
      TrimmedOk(suite, local, before.pending, before.active, before.order, hello.from, pending, active);
      AnswerVouched(suite, local, identity, session, hello, pin, scalar, nonce, number);
      InsertOk(suite, local, pending, active, before.order, sid, s.(order := number));
      active := active[sid := s.(order := number)];
      r := Success(s.ack);
    }

    /** Answers a hello unless the history says that it has been answered before. */
    method RespondOnce(session: string, hello: SecureEnvelope, pin: Bytes, scalar: Option<Bytes>, nonce: Option<Bytes>)
      returns (r: Result<Option<SecureEnvelope>, SecureError>)
      requires Valid()
      modifies this
      ensures Valid()
      ensures seenHelloOrder == HistoryAfter(suite, local, old(seenHelloOrder), Request.AnsweringOnce(session, hello, pin))
      ensures match Authentic(suite, local, session, hello, pin)
              case Failure(e) => r == Failure(e) && Snapshot() == old(Snapshot()) && seenHelloOrder == old(seenHelloOrder)
              case Success(sig) =>
                && seenHelloOrder == Remember(old(seenHelloOrder), (session, sig))
                && if (session, sig) in old(seenHelloOrder) then r == Success(None) && Snapshot() == old(Snapshot())
                   else
                     (r.Success? ==> r.value.Some?)
                     && Responds(session, hello, pin, Answer(suite, local, identity, session, hello, pin, scalar, nonce),
                                 old(Snapshot()), Snapshot(), if r.Success? then Success(r.value.value) else Failure(r.error))
      ensures r == Success(None) <==> Withheld(suite, local, old(seenHelloOrder), session, hello, pin)
    {
      hide TableOk, HistoryOk, Responds, Answer, Authentic;
      var sig :- Authentic(suite, local, session, hello, pin);
      if (session, sig) in seenHellos {
        return Success(None);
      }
      var answer :- Respond(session, hello, pin, scalar, nonce);
      r := Success(Some(answer));
    }

    /** Finds the hello an ack answers and turns it into a session. */
    method Complete(session: string, ack: SecureEnvelope) returns (r: Result<string, SecureError>)
      requires Valid()
      modifies this`pending, this`active
      ensures Valid()
      ensures seenHelloOrder == HistoryAfter(suite, local, old(seenHelloOrder), Request.Completing)
      ensures match Acceptable(suite, local, session, ack)
              case Failure(e) => r == Failure(e) && Snapshot() == old(Snapshot())
              case Success(sid) => ack.sid == Some(sid) && Completes(suite, local, session, ack, old(Snapshot()), Snapshot(), r)
    {
      hide TableOk, HistoryOk, Acceptable, SignedFor, Completion, Vouched, OwnHello, AckInput;
      AcceptableSid(suite, local, session, ack);
      var sid :- Acceptable(suite, local, session, ack);
      if sid in active && Completed(active[sid], session, ack) {
        return Success(sid);
      }
      var selected: Option<nat> := None;
      for i := 0 to |pending|
        invariant selected.None? && forall j | 0 <= j < i :: !SignedFor(suite, session, ack, pending[j])
      {
        if SignedFor(suite, session, ack, pending[i]) {
          selected := Some(i);
          break;
        }
      }
      if selected.None? {
        return Failure(BadHandshakeSignature);
      }
      var i := selected.value;
      assert FirstSigned(suite, session, ack, pending, i);
      assert pending[i] in pending;
      CompletionFor(suite, local, session, ack, pending[i]);
      var done :- Completion(suite, local, session, ack, pending[i]);
      var (derived, s) := done;
      OwnPending(suite, local, pending, active, order, pending[i]);
      CompletionVouched(suite, local, session, ack, pending[i]);
      MoveOk(suite, local, pending, active, order, i, derived, s);
      pending := pending[..i] + pending[i + 1..];
      active := active[derived := s];
      r := Success(derived);
    }

    function Info(sid: string): Result<SessionInfo, SecureError>
      reads this
    {
      if sid in active then
        var s := active[sid];
        Success(SessionInfo(sid, s.peer, local, s.hacpSession, s.state, s.sendSeq))
      else Failure(SessionUnknown)
    }

    /** Encrypts under the session's next number; the number is spent before the rest can fail. */
    method Seal(sid: string, n: u64, contract: string, payload: Bytes) returns (r: Result<SecureEnvelope, SecureError>)
      requires Valid()
      modifies this`active
      ensures Valid()
      ensures seenHelloOrder == HistoryAfter(suite, local, old(seenHelloOrder), Request.Sealing)
      ensures if sid !in old(active) then r == Failure(SessionUnknown) && active == old(active)
              else
                var sealed := SealMessage(suite, local, identity, sid, old(active)[sid], n, contract, payload);
                r == sealed.envelope
                && active == if sealed.session.Some? then old(active)[sid := sealed.session.value] else old(active) - {sid}
    {
      hide TableOk, HistoryOk, AadBytes, Finished, Numbered;
      if sid !in active {
        return Failure(SessionUnknown);
      }
      var s := active[sid];
      Numbering(suite, local, pending, active, order);
      DropOk(suite, local, pending, active, order, {s.order});
      KeptOne(pending, active, order, sid);
      if n == U64_MAX || s.sendSeq == U64_MAX {
        active := active - {sid};
        return Failure(SessionExhausted);
      }
      assert active[sid := s] == active;
      if n != s.sendSeq {
        return Failure(ReplayRejected);
      }
      var draft := Draft(local, s.peer, sid, n, contract);
      var aad :- AadBytes(suite.rfc3339, draft);
      var ct :- Crypto.Seal(suite, s.keys, s.initiator, n, aad, payload);
      SameEntryOk(suite, local, pending, active, order, sid, s.(sendSeq := s.sendSeq + 1));
      ghost var active0 := active;
      active := active[sid := active[sid].(sendSeq := active[sid].sendSeq + 1)];
      r := Finished(suite, identity, draft.(ct := Some(HexText(ct))));
      if r.Failure? {
        active := active - {sid};
        assert active == active0 - {sid};
      }
    }

    method VerifyMessage(env: SecureEnvelope) returns (r: Result<Unit, SecureError>)
      ensures r == if !Envelope.Valid(suite.rfc3339, env) || !env.kind.Msg? || env.sid.None? then Failure(SchemaViolation)
                   else if env.sid.value !in active then Failure(SessionUnknown)
                   else Verify(suite, local, active[env.sid.value], env)
    {
      hide MessageInput;
      if !Envelope.Valid(suite.rfc3339, env) || !env.kind.Msg? || env.sid.None? {
        return Failure(SchemaViolation);
      }
      if env.sid.value !in active {
        return Failure(SessionUnknown);
      }
      var s := active[env.sid.value];
      if env.from != s.peer || env.to != local {
        return Failure(IdentityMismatch);
      }
      var input :- MessageInput(suite.rfc3339, env);
      r := if suite.verify(s.pin, input, env.sig.value) then Success(Unit) else Failure(BadMessageSignature);
    }

    /** Opens a verified message; success confirms the session, the last number ends it. */
    method OpenAuthenticated(env: SecureEnvelope) returns (r: Result<Bytes, SecureError>)
      requires Valid()
      modifies this`active
      ensures Valid()
      ensures seenHelloOrder == HistoryAfter(suite, local, old(seenHelloOrder), Request.Opening)
      ensures if !Envelope.Valid(suite.rfc3339, env) || !env.kind.Msg? then r == Failure(SchemaViolation) && active == old(active)
              else if env.sid.value !in old(active) then r == Failure(SessionUnknown) && active == old(active)
              else
                var s := old(active)[env.sid.value];
                r == Opened(suite, local, s, env)
                && active == if Verify(suite, local, s, env).Success? && env.seq_ == Some(U64_MAX) then old(active) - {env.sid.value}
                             else if r.Success? then old(active)[env.sid.value := Confirmed(s)]
                             else old(active)
    {
      hide TableOk, HistoryOk, Numbered, Verify, OpenVerified;
      var verified := VerifyMessage(env);
      if verified.Failure? {
        return Failure(verified.error);
      }
      var sid := env.sid.value;
      var s := active[sid];
      Numbering(suite, local, pending, active, order);
      DropOk(suite, local, pending, active, order, {s.order});
      KeptOne(pending, active, order, sid);
      LastNumberRefused(suite, s, env);
      if env.seq_ == Some(U64_MAX) {
        active := active - {sid};
        return Failure(SessionExhausted);
      }
      var pt :- OpenVerified(suite, s, env);
      SameEntryOk(suite, local, pending, active, order, sid, Confirmed(s));
      active := active[sid := active[sid].(state := Established)];
      r := Success(pt);
    }

    method Close(sid: string) returns (r: Result<Unit, SecureError>)
      requires Valid()
      modifies this`active
      ensures Valid()
      ensures seenHelloOrder == HistoryAfter(suite, local, old(seenHelloOrder), Request.Closing)
      ensures active == old(active) - {sid} && r == if sid in old(active) then Success(Unit) else Failure(SessionUnknown)
    {
      hide TableOk, HistoryOk, Numbered;
      if sid !in active {
        assert active == active - {sid};
        return Failure(SessionUnknown);
      }
      Numbering(suite, local, pending, active, order);
      DropOk(suite, local, pending, active, order, {active[sid].order});
      KeptOne(pending, active, order, sid);
      active := active - {sid};
      r := Success(Unit);
    }

    /** Forgets every hello and session of a context, and no other. */
    method CloseContext(context: string)
      requires Valid()
      modifies this`pending, this`active
      ensures Valid()
      ensures seenHelloOrder == HistoryAfter(suite, local, old(seenHelloOrder), Request.ClosingContext)
      ensures forall p :: p in pending <==> p in old(pending) && p.hacpSession != context
      ensures active == map sid | sid in old(active) && old(active)[sid].hacpSession != context :: old(active)[sid]
    {
      hide TableOk, HistoryOk, Numbered, Without, Kept;
      Numbering(suite, local, pending, active, order);
      ContextDropped(pending, active, order, context);
      DropOk(suite, local, pending, active, order, OfContext(pending, active, context));
      NotOfMembers(pending, context);
      pending := NotOf(pending, context);
      active := map sid | sid in active && active[sid].hacpSession != context :: active[sid];
    }
  }

  /**
   Whatever a session table has been asked to do: every session in it rests on a hello or an
   ack of the peer it names, addressed to this guardian, whose signature verifies under the
   pin, and every hello under way is this guardian's own.
   */
  lemma SessionsVouched(manager: SessionManager)
    requires manager.Valid()
    ensures forall sid | sid in manager.active :: Vouched(manager.suite, manager.local, manager.active[sid])
    ensures forall p | p in manager.pending :: OwnHello(manager.suite, manager.local, p)
  {
    hide Vouched, OwnHello, Numbered, WithinLimit, OneAnswerEach;
  }
}
