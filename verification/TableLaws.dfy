/**
 What answering and completing come to over the whole session table (`src/secure/session.rs`):
 which session an ack that goes out belongs to, and which ack a session that comes about
 belongs to.
 */
module TableLaws {
  import opened Wrappers
  import opened Text
  import opened Secure
  import opened Crypto
  import opened Envelope
  import opened Sessions
  import opened Handshakes
  import opened HandshakeLaws
  import opened PendingBound
  import opened Managers

  /** A session of the answering end for this hello: same context, pin, sender and signature. */
  ghost predicate AnswersHello(s: Session, session: string, hello: SecureEnvelope, pin: Bytes) {
    !s.initiator && s.hacpSession == session && s.pin == pin && s.hello.from == hello.from && s.hello.sig == hello.sig
  }

  /** Whatever ack goes out belongs to a session, of the answering end, for the hello that came in. */
  lemma AckIsForHello(
      suite: Suite, local: string, identity: Bytes, session: string, hello: SecureEnvelope, pin: Bytes,
      scalar: Option<Bytes>, nonce: Option<Bytes>, before: Table, after: Table, r: Result<SecureEnvelope, SecureError>)
    requires Responds(session, hello, pin, Answer(suite, local, identity, session, hello, pin, scalar, nonce), before, after, r)
    requires r.Success?
    ensures exists sid :: sid in after.active && AnswersHello(after.active[sid], session, hello, pin) && after.active[sid].ack == r.value
  {
    hide Answer, Trimmed;
    AnswerFor(suite, local, identity, session, hello, pin, scalar, nonce);
    if !Answered(before.active, session, hello, pin) {
      var sid := Answer(suite, local, identity, session, hello, pin, scalar, nonce).value.0;
      assert sid in after.active && AnswersHello(after.active[sid], session, hello, pin);
    }
  }

  /** A hello that has an answering session gets that session's ack again, and nothing changes. */
  lemma SameHelloSameAck(
      session: string, hello: SecureEnvelope, pin: Bytes, answer: Result<(string, Session), SecureError>,
      before: Table, after: Table, r: Result<SecureEnvelope, SecureError>, sid: string)
    requires Responds(session, hello, pin, answer, before, after, r) && OneAnswerEach(before.active)
    requires sid in before.active && AnswersHello(before.active[sid], session, hello, pin)
    ensures after == before && r == Success(before.active[sid].ack)
  {
    hide Trimmed;
    var s := before.active[sid];
    assert Answers(s, session, hello, pin);
    var other :| other in before.active && Answers(before.active[other], session, hello, pin) && r == Success(before.active[other].ack);
    assert Answers(before.active[other], s.hacpSession, s.hello, s.pin);
  }

  /** Hellos sent to a peer and answers to it that it has not confirmed yet. */
  ghost function Unfinished(pending: seq<Pending>, active: map<string, Session>, peer: string): nat {
    |set i: nat | i < |pending| && pending[i].hello.to == peer|
    + |set sid | sid in active && active[sid].peer == peer && active[sid].state == AckSent|
  }

  lemma UnfinishedIsWaiting(pending: seq<Pending>, active: map<string, Session>, order: u64, peer: string)
    requires Numbered(pending, active, order)
    ensures Unfinished(pending, active, peer) == |Waiting(pending, active, peer)|
  {
    hide Numbered, Waiting;
    var hellos := set i: nat | i < |pending| && pending[i].hello.to == peer;
    var answers := set sid | sid in active && Waits(active[sid], peer);
    CountIsWaiting(pending, active, order, peer, hellos, answers);
    assert answers == set sid | sid in active && active[sid].peer == peer && active[sid].state == AckSent;
  }

  /**
   A hello without one gets a fresh answer, filed under its session id with the next order
   number, when one can be made; fewer than four unfinished handshakes with the peer are left
   as they were, and of more the newest three stay.
   */
  lemma NewHelloNewAck(
      session: string, hello: SecureEnvelope, pin: Bytes, answer: Result<(string, Session), SecureError>,
      before: Table, after: Table, r: Result<SecureEnvelope, SecureError>)
    requires Responds(session, hello, pin, answer, before, after, r)
    requires forall sid | sid in before.active :: !AnswersHello(before.active[sid], session, hello, pin)
    requires answer.Success? && before.order < 0xFFFF_FFFF_FFFF_FFFF && Numbered(before.pending, before.active, before.order)
    ensures var (sid, s) := answer.value;
            && r == Success(s.ack) && after.order == before.order + 1
            && sid in after.active && after.active[sid] == s.(order := after.order)
            && (Unfinished(before.pending, before.active, hello.from) < 4 ==>
                  after.pending == before.pending && after.active == before.active[sid := s.(order := after.order)])
    ensures Unfinished(before.pending, before.active, hello.from) >= 4 ==>
              exists room :: NewestThree(before.pending, before.active, after.pending, room, hello.from)
                             && after.active == room[answer.value.0 := answer.value.1.(order := after.order)]
  {
    hide Trimmed, Waiting, Numbered, Unfinished;
    UnfinishedIsWaiting(before.pending, before.active, before.order, hello.from);
    var (sid, s) := answer.value;
    assert !Answered(before.active, session, hello, pin);
    var room :| Trimmed(before.pending, before.active, after.pending, room, hello.from)
                && after.active == room[sid := s.(order := after.order)];
    RoomMade(before.pending, before.active, after.pending, room, hello.from);
  }

  /** Of the unfinished handshakes with a peer three are left, all newer than those dropped; nothing else is dropped. */
  ghost predicate NewestThree(
    pending: seq<Pending>, active: map<string, Session>, pending': seq<Pending>, active': map<string, Session>, peer: string)
  {
    var before, after := Waiting(pending, active, peer), Waiting(pending', active', peer);
    && after <= before && |after| == 3 && (forall x, y | x in before - after && y in after :: x < y)
    && (forall p :: p in pending' <==> p in pending && p.order !in before - after)
    && (forall sid :: sid in active' <==> sid in active && active[sid].order !in before - after)
    && (forall sid | sid in active' :: active'[sid] == active[sid])
  }

  lemma RoomMade(
      pending: seq<Pending>, active: map<string, Session>, pending': seq<Pending>, active': map<string, Session>, peer: string)
    requires Trimmed(pending, active, pending', active', peer)
    ensures |Waiting(pending, active, peer)| < 4 ==> pending' == pending && active' == active
    ensures |Waiting(pending, active, peer)| >= 4 ==> NewestThree(pending, active, pending', active', peer)
  {
    hide Waiting, Without;
    if |Waiting(pending, active, peer)| < 4 {
      TrimNothing(pending, active, peer);
      TrimmedUnique(pending, active, pending', active', pending, active, peer);
    }
    WithoutMembers(pending, Waiting(pending, active, peer) - Waiting(pending', active', peer));
  }

  /** In a table in order no peer ever has more than four unfinished handshakes. */
  lemma FourAtMost(manager: SessionManager, peer: string)
    requires manager.Valid()
    ensures Unfinished(manager.pending, manager.active, peer) <= 4
  {
    hide Numbered, OneAnswerEach, OwnHello, Vouched, Waiting, Unfinished;
    UnfinishedIsWaiting(manager.pending, manager.active, manager.order, peer);
  }

  // ------------------------------------------------------------- completing

  /**
   Whoever completes does so with this very ack: the session it names is of the initiating
   end, in this context, under the id the ack announces, and keeps the ack.
   */
  lemma CompletedByThisAck(
      suite: Suite, local: string, session: string, ack: SecureEnvelope, before: Table, after: Table, r: Result<string, SecureError>)
    requires Acceptable(suite, local, session, ack).Success? && ack.sid.Some?
    requires forall p | p in before.pending :: OwnHello(suite, local, p)
    requires Completes(suite, local, session, ack, before, after, r) && r.Success?
    ensures ack.sid == Some(r.value) && r.value in after.active
    ensures var s := after.active[r.value]; s.initiator && s.hacpSession == session && s.ack == ack
    ensures after.order == before.order
  {
    hide Acceptable, SignedFor, Completion, OwnHello;
    var sid := ack.sid.value;
    if !(sid in before.active && Completed(before.active[sid], session, ack)) {
      var i: nat :| FirstSigned(suite, session, ack, before.pending, i)
                    && match Completion(suite, local, session, ack, before.pending[i])
                       case Failure(e) => after == before && r == Failure(e)
                       case Success(done) =>
                         r == Success(done.0)
                         && after == Table(before.pending[..i] + before.pending[i + 1..], before.active[done.0 := done.1], before.order);
      assert before.pending[i] in before.pending;
      CompletionKeeps(suite, local, session, ack, before.pending[i]);
    }
  }

  lemma CompletionKeeps(suite: Suite, local: string, session: string, ack: SecureEnvelope, p: Pending)
    requires Acceptable(suite, local, session, ack).Success? && OwnHello(suite, local, p)
    requires Completion(suite, local, session, ack, p).Success?
    ensures var (sid, s) := Completion(suite, local, session, ack, p).value;
            ack.sid == Some(sid) && s.initiator && s.hacpSession == session && s.ack == ack && s.peer == ack.from && s.hello == p.hello
  {
    hide Valid, Acceptable, Completion, HexText;
    AcceptableExact(suite, local, session, ack);
    KeyAndNonce(suite.rfc3339, ack);
    KeyAndNonce(suite.rfc3339, p.hello);
    CompletionExact(suite, local, session, ack, p, Bytes32(ack.epub).value, Bytes32(p.hello.nonce).value, Bytes32(ack.nonce).value);
  }

  /** The same ack completes once: brought again it finds its session, and nothing changes. */
  lemma SameAckSameSession(
      suite: Suite, local: string, session: string, ack: SecureEnvelope, before: Table, after: Table, r: Result<string, SecureError>,
      sid: string)
    requires ack.sid == Some(sid) && Completes(suite, local, session, ack, before, after, r)
    requires sid in before.active
    requires var s := before.active[sid]; s.initiator && s.hacpSession == session && s.ack == ack
    ensures after == before && r == Success(sid)
  {
  }

  /** An ack that is signed for no kept hello and has not completed before changes nothing. */
  lemma UnsignedAckRefused(
      suite: Suite, local: string, session: string, ack: SecureEnvelope, before: Table, after: Table, r: Result<string, SecureError>)
    requires ack.sid.Some? && Completes(suite, local, session, ack, before, after, r)
    requires forall sid | sid in before.active :: before.active[sid].ack != ack
    requires forall p | p in before.pending && p.hello.to == ack.from && p.hacpSession == session ::
               !AckVouched(suite, session, ack, p.hello, p.pin)
    ensures after == before && r == Failure(BadHandshakeSignature)
  {
    hide AckInput;
    forall p | p in before.pending ensures !SignedFor(suite, session, ack, p) {
      if SignedFor(suite, session, ack, p) {
        AckKind(suite, session, ack, p.hello);
      }
    }
  }

  lemma AckKind(suite: Suite, session: string, ack: SecureEnvelope, hello: SecureEnvelope)
    ensures AckInput(suite.rfc3339, session, ack, hello).Success? ==> ack.kind.Ack?
  {
  }
}
