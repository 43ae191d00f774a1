/**
 The three-step handshake on values: the hello, the answer and its completion, with
 the checks each step makes (`src/secure/session.rs`). Random values are arguments.
 */
module Handshakes {
  import opened Wrappers
  import opened Text
  import opened Secure
  import opened Crypto
  import opened Envelope
  import opened Sessions

  datatype Pending = Pending(hello: SecureEnvelope, hacpSession: string, pin: Bytes, ephemeral: Bytes, order: u64)

  function Handshake(kind: Kind, from: string, to: string, epub: Bytes, nonce: Bytes): SecureEnvelope {
    SecureEnvelope(1, kind, from, to, "", None, None, Some(HexText(epub)), Some(HexText(nonce)), None, None, None)
  }

  function Required(s: Option<string>): Result<string, SecureError> {
    if s.Some? then Success(s.value) else Failure(SchemaViolation)
  }

  function Bytes32(s: Option<string>): Result<Bytes, SecureError> {
    var bytes :- Decoded(s);
    if |bytes| == 32 then Success(bytes) else Failure(SchemaViolation)
  }

  function Require(ok: bool, e: SecureError): Result<Unit, SecureError> {
    if ok then Success(Unit) else Failure(e)
  }

  /** A value that has to be drawn, when the generator delivers one. */
  function Drawn(random: Option<Bytes>): Result<Bytes, SecureError> {
    if random.Some? then Success(random.value) else Failure(GuardianUnavailable)
  }

  // ----------------------------------------------------------------- hello

  function MakeHello(
    suite: Suite, local: string, identity: Bytes, peer: string, session: string, scalar: Option<Bytes>, nonce: Option<Bytes>)
    : Result<SecureEnvelope, SecureError>
  {
    var _ :- Require(session != "", SchemaViolation);
    var _ :- Require(Urn(peer) && peer != local, IdentityMismatch);
    var a :- Drawn(scalar);
    var ni :- Drawn(nonce);
    var hello := Handshake(Hello, local, peer, suite.ephemeralPublic(a), ni);
    var input :- HelloInput(suite.rfc3339, session, hello);
    var signed := hello.(sig := Some(suite.sign(identity, input)));
    var _ :- Require(Valid(suite.rfc3339, signed), SchemaViolation);
    Success(signed)
  }

  // ---------------------------------------------------------------- answer

  /** What both ways of answering check of a hello before anything else happens. */
  function Authentic(suite: Suite, local: string, session: string, hello: SecureEnvelope, pin: Bytes)
    : Result<string, SecureError>
  {
    var _ :- Require(Valid(suite.rfc3339, hello) && session != "" && hello.kind.Hello?, SchemaViolation);
    var _ :- Require(hello.to == local && hello.from != local, IdentityMismatch);
    var transcript :- HelloInput(suite.rfc3339, session, hello);
    var sig :- Required(hello.sig);
    if suite.verify(pin, transcript, sig) then Success(sig) else Failure(BadHandshakeSignature)
  }

  /** A session that already answers this very hello. */
  predicate Answers(s: Session, session: string, hello: SecureEnvelope, pin: Bytes) {
    !s.initiator && s.hacpSession == session && s.pin == pin && s.hello.sig == hello.sig && s.hello.from == hello.from
  }

  /** A fresh answer, short of its order number: the session id and the session. */
  function Answer(
    suite: Suite, local: string, identity: Bytes, session: string, hello: SecureEnvelope, pin: Bytes,
    scalar: Option<Bytes>, nonce: Option<Bytes>): Result<(string, Session), SecureError>
  {
    var b :- Drawn(scalar);
    var nr :- Drawn(nonce);
    var epub :- Bytes32(hello.epub);
    var ni :- Bytes32(hello.nonce);
    var (sid, keys) :- suite.establish(b, epub, ni, nr, session, hello.from, local);
    var ack := Handshake(Ack, local, hello.from, suite.ephemeralPublic(b), nr).(sid := Some(sid));
    var input :- AckInput(suite.rfc3339, session, ack, hello);
    var signed := ack.(sig := Some(suite.sign(identity, input)));
    var _ :- Require(Valid(suite.rfc3339, signed), SchemaViolation);
    Success((sid, Session(hello.from, session, AckSent, 0, keys, pin, false, 0, hello, signed)))
  }

  // ------------------------------------------------------------ completion

  /** What is checked of an ack before the pending hellos are tried. */
  function Acceptable(suite: Suite, local: string, session: string, ack: SecureEnvelope): Result<string, SecureError> {
    var _ :- Require(Valid(suite.rfc3339, ack) && session != "" && ack.kind.Ack?, SchemaViolation);
    var _ :- Require(ack.to == local && ack.from != local, IdentityMismatch);
    Required(ack.sid)
  }

  predicate Completed(s: Session, session: string, ack: SecureEnvelope) {
    s.initiator && s.hacpSession == session && s.ack == ack
  }

  /** Whether an ack is signed for one pending hello. */
  predicate SignedFor(suite: Suite, session: string, ack: SecureEnvelope, p: Pending) {
    && p.hello.to == ack.from && p.hacpSession == session && ack.sig.Some?
    && var input := AckInput(suite.rfc3339, session, ack, p.hello);
       input.Success? && suite.verify(p.pin, input.value, ack.sig.value)
  }

  function Completion(suite: Suite, local: string, session: string, ack: SecureEnvelope, p: Pending)
    : Result<(string, Session), SecureError>
  {
    var epub :- Bytes32(ack.epub);
    var ni :- Bytes32(p.hello.nonce);
    var nr :- Bytes32(ack.nonce);
    var (derived, keys) :- suite.establish(p.ephemeral, epub, ni, nr, session, local, ack.from);
    var _ :- Require(Some(derived) == ack.sid, BadHandshakeSignature);
    Success((derived, Session(ack.from, session, Established, 0, keys, p.pin, true, p.order, p.hello, ack)))
  }

  /** A hello this guardian sent and has kept. */
  predicate OwnHello(suite: Suite, local: string, p: Pending) {
    Valid(suite.rfc3339, p.hello) && p.hello.kind.Hello? && p.hello.from == local
  }

  /** No transcript of an acceptable ack with a kept hello can fail to be built. */
  lemma TranscriptAlwaysBuilt(suite: Suite, local: string, session: string, ack: SecureEnvelope, p: Pending)
    requires Acceptable(suite, local, session, ack).Success? && OwnHello(suite, local, p) && p.hello.to == ack.from
    ensures AckInput(suite.rfc3339, session, ack, p.hello).Success?
  {
  }

  // -------------------------------------------------------------- vouching

  /** The signature of a hello verifies under `pin`, in this context. */
  ghost predicate HelloVouched(suite: Suite, session: string, hello: SecureEnvelope, pin: Bytes) {
    var input := HelloInput(suite.rfc3339, session, hello);
    hello.kind.Hello? && hello.sig.Some? && input.Success? && suite.verify(pin, input.value, hello.sig.value)
  }

  /** The signature of an ack to this hello verifies under `pin`, in this context. */
  ghost predicate AckVouched(suite: Suite, session: string, ack: SecureEnvelope, hello: SecureEnvelope, pin: Bytes) {
    var input := AckInput(suite.rfc3339, session, ack, hello);
    ack.kind.Ack? && ack.sig.Some? && input.Success? && suite.verify(pin, input.value, ack.sig.value)
  }

  /** A session rests on a handshake message of the named peer whose signature verifies under the pin. */
  ghost predicate Vouched(suite: Suite, local: string, s: Session) {
    if s.initiator then
      s.ack.from == s.peer && s.ack.to == local && s.hello.from == local && AckVouched(suite, s.hacpSession, s.ack, s.hello, s.pin)
    else
      s.hello.from == s.peer && s.hello.to == local && s.peer != local && HelloVouched(suite, s.hacpSession, s.hello, s.pin)
  }

  /** A hello is taken up exactly when it is well-formed, from somebody else to this guardian, and signed under the pin. */
  lemma AuthenticExact(suite: Suite, local: string, session: string, hello: SecureEnvelope, pin: Bytes)
    ensures Authentic(suite, local, session, hello, pin)
            == if !Valid(suite.rfc3339, hello) || session == "" || !hello.kind.Hello? then Failure(SchemaViolation)
               else if hello.to != local || hello.from == local then Failure(IdentityMismatch)
               else if HelloVouched(suite, session, hello, pin) then Success(hello.sig.value)
               else Failure(BadHandshakeSignature)
  {
    hide Route, Labelled;
  }

  lemma AnswerVouched(
      suite: Suite, local: string, identity: Bytes, session: string, hello: SecureEnvelope, pin: Bytes,
      scalar: Option<Bytes>, nonce: Option<Bytes>, order: u64)
    requires Authentic(suite, local, session, hello, pin).Success?
    requires Answer(suite, local, identity, session, hello, pin, scalar, nonce).Success?
    ensures Vouched(suite, local, Answer(suite, local, identity, session, hello, pin, scalar, nonce).value.1.(order := order))
  {
    hide HelloInput, AckInput, Authentic, Valid;
    AuthenticExact(suite, local, session, hello, pin);
  }

  lemma CompletionVouched(suite: Suite, local: string, session: string, ack: SecureEnvelope, p: Pending)
    requires Acceptable(suite, local, session, ack).Success? && SignedFor(suite, session, ack, p) && OwnHello(suite, local, p)
    requires Completion(suite, local, session, ack, p).Success?
    ensures Vouched(suite, local, Completion(suite, local, session, ack, p).value.1)
  {
    hide AckInput, Valid;
  }

  /**
   The responder's side. When everything that verifies under the pin was signed by its owner as
   some hello, ack or message, the hello an answering session rests on is one its owner made: in
   this very context, between these two, with this key and nonce.
   */
  lemma AnsweredHelloIsMade(
      suite: Suite, local: string, s: Session, made: set<(string, SecureEnvelope)>,
      acks: set<(string, SecureEnvelope, SecureEnvelope)>, messages: set<SecureEnvelope>)
    requires Vouched(suite, local, s) && !s.initiator
    requires forall input, sig | suite.verify(s.pin, input, sig) ::
               || (exists m :: m in made && HelloInput(suite.rfc3339, m.0, m.1) == Success(input))
               || (exists a :: a in acks && AckInput(suite.rfc3339, a.0, a.1, a.2) == Success(input))
               || (exists m :: m in messages && MessageInput(suite.rfc3339, m) == Success(input))
    ensures exists m :: m in made && m.0 == s.hacpSession && m.1.from == s.peer && m.1.to == local
                        && m.1.epub == s.hello.epub && m.1.nonce == s.hello.nonce
  {
    hide HelloInput, AckInput, MessageInput;
    var input := HelloInput(suite.rfc3339, s.hacpSession, s.hello).value;
    assert suite.verify(s.pin, input, s.hello.sig.value);
    forall a | a in acks ensures AckInput(suite.rfc3339, a.0, a.1, a.2) != Success(input) {
      SigningInputsDisjoint(suite.rfc3339, s.hello, s.hacpSession, s.hello, a.0, a.1, a.2);
    }
    forall m | m in messages ensures MessageInput(suite.rfc3339, m) != Success(input) {
      SigningInputsDisjoint(suite.rfc3339, m, s.hacpSession, s.hello, s.hacpSession, s.hello, s.hello);
    }
    var m :| m in made && HelloInput(suite.rfc3339, m.0, m.1) == Success(input);
    HelloInputInjective(suite.rfc3339, m.0, m.1, s.hacpSession, s.hello);
  }

  // ------------------------------------------------------------- agreement

  lemma SpeltBytes(bytes: Bytes)
    ensures |bytes| == 32 ==> Bytes32(Some(HexText(bytes))) == Success(bytes)
    ensures Bytes32(Some(HexText(bytes))).Success? ==> Bytes32(Some(HexText(bytes))) == Success(bytes)
  {
    HexRoundTrip(bytes);
  }

  /**
   Matching conversations. If an initiator completes a handshake with an ack whose signature
   covers what some answering guardian signed, then that guardian answered this very hello
   in this context, and both ends hold the same session id and keys and name each other.
   */
  lemma HandshakeAgreement(
      suite: Suite, initiator: string, idA: Bytes, responder: string, idB: Bytes,
      session: string, a: Option<Bytes>, ni: Option<Bytes>, p: Pending, ack: SecureEnvelope,
      session': string, hello': SecureEnvelope, pin': Bytes, b: Option<Bytes>, nr: Option<Bytes>)
    requires KeysAgree(suite)
    requires MakeHello(suite, initiator, idA, responder, session, a, ni) == Success(p.hello) && Some(p.ephemeral) == a
    requires Acceptable(suite, initiator, session, ack).Success? && SignedFor(suite, session, ack, p)
    requires Completion(suite, initiator, session, ack, p).Success?
    requires Answer(suite, responder, idB, session', hello', pin', b, nr).Success?
    requires var answered := Answer(suite, responder, idB, session', hello', pin', b, nr).value.1;
             AckInput(suite.rfc3339, session', answered.ack, hello').Success?
             && AckInput(suite.rfc3339, session', answered.ack, hello') == AckInput(suite.rfc3339, session, ack, p.hello)
    ensures var (sidA, s) := Completion(suite, initiator, session, ack, p).value;
            var (sidB, t) := Answer(suite, responder, idB, session', hello', pin', b, nr).value;
            && session' == session && hello'.epub == p.hello.epub && hello'.nonce == p.hello.nonce
            && sidA == sidB && s.keys == t.keys && s.hacpSession == t.hacpSession
            && s.peer == responder && t.peer == initiator && s.initiator && !t.initiator && s.sendSeq == t.sendSeq == 0
            && SealingKey(s.keys, s.initiator) == OpeningKey(t.keys, t.initiator)
            && SealingKey(t.keys, t.initiator) == OpeningKey(s.keys, s.initiator)
  {
    hide AckInput, HelloInput, Valid, Header, HexText;
    var (sidA, s) := Completion(suite, initiator, session, ack, p).value;
    var (sidB, t) := Answer(suite, responder, idB, session', hello', pin', b, nr).value;
    AckInputInjective(suite.rfc3339, session', t.ack, hello', session, ack, p.hello);
    SpeltBytes(suite.ephemeralPublic(a.value));
    SpeltBytes(suite.ephemeralPublic(b.value));
    SpeltBytes(ni.value);
    SpeltBytes(nr.value);
    assert ack.epub == t.ack.epub == Some(HexText(suite.ephemeralPublic(b.value)));
  }

  /** A hello and its answer, undisturbed and under the right pin, always complete. */
  lemma HonestHandshakeCompletes(
      suite: Suite, initiator: string, idA: Bytes, responder: string, idB: Bytes, session: string,
      a: Option<Bytes>, ni: Option<Bytes>, pinA: Bytes, pinB: Bytes, b: Option<Bytes>, nr: Option<Bytes>, order: u64)
    requires KeysAgree(suite) && MakeHello(suite, initiator, idA, responder, session, a, ni).Success?
    requires var hello := MakeHello(suite, initiator, idA, responder, session, a, ni).value;
             var answer := Answer(suite, responder, idB, session, hello, pinA, b, nr);
             answer.Success?
             && var ack := answer.value.1.ack;
                AckInput(suite.rfc3339, session, ack, hello).Success? && ack.sig.Some?
                && suite.verify(pinB, AckInput(suite.rfc3339, session, ack, hello).value, ack.sig.value)
    ensures a.Some?
    ensures var hello := MakeHello(suite, initiator, idA, responder, session, a, ni).value;
            var (sid, t) := Answer(suite, responder, idB, session, hello, pinA, b, nr).value;
            var p := Pending(hello, session, pinB, a.value, order);
            Acceptable(suite, initiator, session, t.ack) == Success(sid) && SignedFor(suite, session, t.ack, p)
            && Completion(suite, initiator, session, t.ack, p).Success?
            && Completion(suite, initiator, session, t.ack, p).value.0 == sid
            && Completion(suite, initiator, session, t.ack, p).value.1.keys == t.keys
  {
    hide AckInput, HelloInput, HexText;
    var hello := MakeHello(suite, initiator, idA, responder, session, a, ni).value;
    var t := Answer(suite, responder, idB, session, hello, pinA, b, nr).value.1;
    SpeltBytes(suite.ephemeralPublic(a.value));
    SpeltBytes(suite.ephemeralPublic(b.value));
    SpeltBytes(ni.value);
    SpeltBytes(nr.value);
    ValidHex(suite, hello);
    ValidHex(suite, t.ack);
  }

  lemma ValidHex(suite: Suite, e: SecureEnvelope)
    requires Valid(suite.rfc3339, e) && !e.kind.Msg?
    ensures Bytes32(e.epub).Success? && Bytes32(e.nonce).Success?
  {
    FixedDecoded(e.epub, 32);
    FixedDecoded(e.nonce, 32);
  }
}
