/**
 What each step of a handshake and of a session answers, independently of how it goes about
 it, and that two honest guardians always get through (`src/secure/session.rs`).
 */
module HandshakeLaws {
  import opened Wrappers
  import opened Text
  import opened Secure
  import opened Crypto
  import opened Envelope
  import opened EnvelopeLaws
  import opened Sessions
  import opened Handshakes

  // -------------------------------------------------------------- handshake

  /** A hello with these bytes, before it is signed. */
  function HelloOf(from: string, to: string, key: Bytes, nonce: Bytes): SecureEnvelope {
    SecureEnvelope(1, Hello, from, to, "", None, None, Some(HexText(key)), Some(HexText(nonce)), None, None, None)
  }

  function AckOf(from: string, to: string, sid: string, key: Bytes, nonce: Bytes): SecureEnvelope {
    SecureEnvelope(1, Ack, from, to, "", Some(sid), None, Some(HexText(key)), Some(HexText(nonce)), None, None, None)
  }

  lemma SpelledLength(b: Bytes, len: nat)
    ensures FixedHex(HexText(b), len) <==> |b| == len
  {
  }

  lemma HelloShape(rfc3339: string -> bool, from: string, to: string, key: Bytes, nonce: Bytes)
    ensures Header(rfc3339, HelloOf(from, to, key, nonce)) <==> Urn(from) && Urn(to) && |key| == |nonce| == 32
  {
    hide Urn, FixedHex;
    SpelledLength(key, 32);
    SpelledLength(nonce, 32);
  }

  lemma AckShape(rfc3339: string -> bool, from: string, to: string, sid: string, key: Bytes, nonce: Bytes)
    ensures Header(rfc3339, AckOf(from, to, sid, key, nonce))
            <==> Urn(from) && Urn(to) && FixedHex(sid, 16) && |key| == |nonce| == 32
  {
    hide Urn, FixedHex;
    SpelledLength(key, 32);
    SpelledLength(nonce, 32);
  }

  lemma SignedShape(rfc3339: string -> bool, e: SecureEnvelope, sig: string)
    requires Header(rfc3339, e) && e.sig.None? && !e.kind.Msg?
    ensures Valid(rfc3339, e.(sig := Some(sig))) <==> FixedHex(sig, 64)
  {
    hide Urn, FixedHex, TimeField, ContractField;
  }

  lemma HelloInputBuilt(rfc3339: string -> bool, session: string, e: SecureEnvelope)
    ensures HelloInput(rfc3339, session, e).Success? <==> Header(rfc3339, e) && e.kind.Hello?
    ensures HelloInput(rfc3339, session, e).Failure? ==> HelloInput(rfc3339, session, e).error == SchemaViolation
  {
    hide Urn, Route, Labelled;
  }

  /**
   When a hello is made, and what it is: with a context, a well-named other guardian, two drawn
   values, and names, key, nonce and signature of the right sizes; a refusal names what is missing.
   */
  lemma MakeHelloExact(
      suite: Suite, local: string, identity: Bytes, peer: string, session: string, scalar: Option<Bytes>, nonce: Option<Bytes>)
    ensures var r := MakeHello(suite, local, identity, peer, session, scalar, nonce);
            if session == "" then r == Failure(SchemaViolation)
            else if !Urn(peer) || peer == local then r == Failure(IdentityMismatch)
            else if scalar.None? || nonce.None? then r == Failure(GuardianUnavailable)
            else
              var bare := HelloOf(local, peer, suite.ephemeralPublic(scalar.value), nonce.value);
              var input := HelloInput(suite.rfc3339, session, bare);
              if Urn(local) && |suite.ephemeralPublic(scalar.value)| == |nonce.value| == 32
              then input.Success? && r == if FixedHex(suite.sign(identity, input.value), 64)
                                          then Success(bare.(sig := Some(suite.sign(identity, input.value)))) else Failure(SchemaViolation)
              else r == Failure(SchemaViolation)
  {
    hide Urn, HelloInput, Header, Valid, HexText, FixedHex;
    if session != "" && Urn(peer) && peer != local && scalar.Some? && nonce.Some? {
      var bare := HelloOf(local, peer, suite.ephemeralPublic(scalar.value), nonce.value);
      HelloShape(suite.rfc3339, local, peer, suite.ephemeralPublic(scalar.value), nonce.value);
      HelloInputBuilt(suite.rfc3339, session, bare);
      if Header(suite.rfc3339, bare) {
        SignedShape(suite.rfc3339, bare, suite.sign(identity, HelloInput(suite.rfc3339, session, bare).value));
      }
    }
  }

  lemma AckInputBuilt(rfc3339: string -> bool, session: string, e: SecureEnvelope, hello: SecureEnvelope)
    requires Header(rfc3339, e) && Header(rfc3339, hello) && e.kind.Ack? && hello.kind.Hello? && e.from == hello.to && e.to == hello.from
    ensures AckInput(rfc3339, session, e, hello).Success?
  {
    hide Urn, Route, Labelled;
  }

  lemma KeyAndNonce(rfc3339: string -> bool, e: SecureEnvelope)
    requires Valid(rfc3339, e) && !e.kind.Msg?
    ensures Bytes32(e.epub).Success? && Bytes32(e.nonce).Success?
    ensures SpelledBy(e.epub, Bytes32(e.epub).value) && SpelledBy(e.nonce, Bytes32(e.nonce).value)
  {
    hide HexText, HexPairs;
    FixedDecoded(e.epub, 32);
    FixedDecoded(e.nonce, 32);
    DecodedSpells(e.epub);
    DecodedSpells(e.nonce);
  }

  /**
   What answering an authentic hello comes to: whatever the key agreement derives from its own
   scalar and the key and nonces of both, in this context, as the answering end, unconfirmed.
   */
  lemma AnswerExact(
      suite: Suite, local: string, identity: Bytes, session: string, hello: SecureEnvelope, pin: Bytes,
      scalar: Option<Bytes>, nonce: Option<Bytes>, key: Bytes, ni: Bytes)
    requires Authentic(suite, local, session, hello, pin).Success? && SpelledBy(hello.epub, key) && SpelledBy(hello.nonce, ni)
    ensures var r := Answer(suite, local, identity, session, hello, pin, scalar, nonce);
            if scalar.None? || nonce.None? then r == Failure(GuardianUnavailable)
            else
              match suite.establish(scalar.value, key, ni, nonce.value, session, hello.from, local)
              case Failure(e) => r == Failure(e)
              case Success((sid, keys)) =>
                var bare := AckOf(local, hello.from, sid, suite.ephemeralPublic(scalar.value), nonce.value);
                var input := AckInput(suite.rfc3339, session, bare, hello);
                if FixedHex(sid, 16) && |suite.ephemeralPublic(scalar.value)| == |nonce.value| == 32
                then input.Success?
                     && var ack := bare.(sig := Some(suite.sign(identity, input.value)));
                        r == if FixedHex(suite.sign(identity, input.value), 64)
                             then Success((sid, Session(hello.from, session, AckSent, 0, keys, pin, false, 0, hello, ack)))
                             else Failure(SchemaViolation)
                else r == Failure(SchemaViolation)
  {
    hide Urn, AckInput, Header, Valid, HexText, FixedHex, Authentic, HelloVouched;
    AuthenticExact(suite, local, session, hello, pin);
    KeyAndNonce(suite.rfc3339, hello);
    SpelledOnce(hello.epub, key, Bytes32(hello.epub).value);
    SpelledOnce(hello.nonce, ni, Bytes32(hello.nonce).value);
    if scalar.Some? && nonce.Some? && suite.establish(scalar.value, key, ni, nonce.value, session, hello.from, local).Success? {
      var (sid, keys) := suite.establish(scalar.value, key, ni, nonce.value, session, hello.from, local).value;
      var bare := AckOf(local, hello.from, sid, suite.ephemeralPublic(scalar.value), nonce.value);
      ValidNames(suite.rfc3339, hello);
      AckShape(suite.rfc3339, local, hello.from, sid, suite.ephemeralPublic(scalar.value), nonce.value);
      AckInputOnlyOf(suite.rfc3339, session, bare, hello);
      if Header(suite.rfc3339, bare) {
        AckInputBuilt(suite.rfc3339, session, bare, hello);
        SignedShape(suite.rfc3339, bare, suite.sign(identity, AckInput(suite.rfc3339, session, bare, hello).value));
      }
    }
  }

  lemma AckInputOnlyOf(rfc3339: string -> bool, session: string, e: SecureEnvelope, hello: SecureEnvelope)
    ensures !Header(rfc3339, e) ==> AckInput(rfc3339, session, e, hello) == Failure(SchemaViolation)
  {
  }

  lemma ValidNames(rfc3339: string -> bool, e: SecureEnvelope)
    requires Valid(rfc3339, e)
    ensures Urn(e.from) && Urn(e.to) && Header(rfc3339, e)
  {
  }

  lemma SpelledOnce(value: Option<string>, a: Bytes, b: Bytes)
    requires SpelledBy(value, a) && SpelledBy(value, b)
    ensures a == b
  {
    hide HexText;
    HexRoundTrip(a);
    HexRoundTrip(b);
  }

  lemma AcceptableExact(suite: Suite, local: string, session: string, ack: SecureEnvelope)
    ensures Acceptable(suite, local, session, ack)
            == if !Valid(suite.rfc3339, ack) || session == "" || !ack.kind.Ack? then Failure(SchemaViolation)
               else if ack.to != local || ack.from == local then Failure(IdentityMismatch)
               else Success(ack.sid.value)
  {
    hide Urn, FixedHex;
  }

  /**
   What completing with an ack signed for a kept hello comes to: whatever the key agreement
   derives from the kept scalar and the key and nonces of both, provided that the ack announces
   the session id that is derived.
   */
  lemma CompletionExact(
      suite: Suite, local: string, session: string, ack: SecureEnvelope, p: Pending, key: Bytes, ni: Bytes, nr: Bytes)
    requires Acceptable(suite, local, session, ack).Success? && OwnHello(suite, local, p)
    requires SpelledBy(ack.epub, key) && SpelledBy(p.hello.nonce, ni) && SpelledBy(ack.nonce, nr)
    ensures var r := Completion(suite, local, session, ack, p);
            match suite.establish(p.ephemeral, key, ni, nr, session, local, ack.from)
            case Failure(e) => r == Failure(e)
            case Success((sid, keys)) =>
              r == if ack.sid == Some(sid)
                   then Success((sid, Session(ack.from, session, Established, 0, keys, p.pin, true, p.order, p.hello, ack)))
                   else Failure(BadHandshakeSignature)
  {
    hide Valid, HexText;
    AcceptableExact(suite, local, session, ack);
    KeyAndNonce(suite.rfc3339, ack);
    KeyAndNonce(suite.rfc3339, p.hello);
    SpelledOnce(ack.epub, key, Bytes32(ack.epub).value);
    SpelledOnce(p.hello.nonce, ni, Bytes32(p.hello.nonce).value);
    SpelledOnce(ack.nonce, nr, Bytes32(ack.nonce).value);
  }

  /** Signatures under an identity are of the right size and verify under its pin. */
  ghost predicate SignsFor(suite: Suite, identity: Bytes, pin: Bytes) {
    forall input :: FixedHex(suite.sign(identity, input), 64) && suite.verify(pin, input, suite.sign(identity, input))
  }

  /** How a hello and its answer go between two honest guardians. */
  ghost predicate GetsThrough(
    suite: Suite, i: string, idI: Bytes, pinI: Bytes, r: string, idR: Bytes, pinR: Bytes, session: string,
    a: Bytes, ni: Bytes, b: Bytes, nr: Bytes, order: u64, sid: string, keys: Keys)
  {
    var made := MakeHello(suite, i, idI, r, session, Some(a), Some(ni));
    made.Success? && Authentic(suite, r, session, made.value, pinI).Success?
    && var answer := Answer(suite, r, idR, session, made.value, pinI, Some(b), Some(nr));
       answer.Success?
       && var ack := answer.value.1.ack;
          var p := Pending(made.value, session, pinR, a, order);
          && answer.value == (sid, Session(i, session, AckSent, 0, keys, pinI, false, 0, made.value, ack))
          && Acceptable(suite, i, session, ack) == Success(sid) && SignedFor(suite, session, ack, p)
          && Completion(suite, i, session, ack, p)
             == Success((sid, Session(r, session, Established, 0, keys, pinR, true, order, made.value, ack)))
  }

  /**
   Two honest guardians get through. Between two well-named guardians whose signatures verify
   under each other's pins, with values of the right sizes and a key agreement that succeeds,
   the hello is made, found authentic and answered, and the answer completes it: both ends hold
   what the key agreement derived, the initiator established and the answerer unconfirmed.
   */
  lemma HonestExchange(
      suite: Suite, i: string, idI: Bytes, pinI: Bytes, r: string, idR: Bytes, pinR: Bytes, session: string,
      a: Bytes, ni: Bytes, b: Bytes, nr: Bytes, order: u64, sid: string, keys: Keys)
    requires KeysAgree(suite) && SignsFor(suite, idI, pinI) && SignsFor(suite, idR, pinR)
    requires Urn(i) && Urn(r) && i != r && session != ""
    requires |ni| == |nr| == |suite.ephemeralPublic(a)| == |suite.ephemeralPublic(b)| == 32
    requires suite.establish(b, suite.ephemeralPublic(a), ni, nr, session, i, r) == Success((sid, keys)) && FixedHex(sid, 16)
    ensures GetsThrough(suite, i, idI, pinI, r, idR, pinR, session, a, ni, b, nr, order, sid, keys)
  {
    hide Urn, HelloInput, AckInput, Header, HexText, FixedHex, MakeHello, Authentic, Answer, Acceptable, Completion;
    var A, B := suite.ephemeralPublic(a), suite.ephemeralPublic(b);
    MakeHelloExact(suite, i, idI, r, session, Some(a), Some(ni));
    var hello := MakeHello(suite, i, idI, r, session, Some(a), Some(ni)).value;
    HelloShape(suite.rfc3339, i, r, A, ni);
    SignedShape(suite.rfc3339, HelloOf(i, r, A, ni), hello.sig.value);
    HelloInputIgnoresSignature(suite.rfc3339, session, HelloOf(i, r, A, ni), hello.sig);
    AuthenticExact(suite, r, session, hello, pinI);
    AnswerExact(suite, r, idR, session, hello, pinI, Some(b), Some(nr), A, ni);
    var ack := Answer(suite, r, idR, session, hello, pinI, Some(b), Some(nr)).value.1.ack;
    AckShape(suite.rfc3339, r, i, sid, B, nr);
    SignedShape(suite.rfc3339, AckOf(r, i, sid, B, nr), ack.sig.value);
    AckInputIgnoresSignature(suite.rfc3339, session, AckOf(r, i, sid, B, nr), hello, ack.sig);
    AcceptableExact(suite, i, session, ack);
    var p := Pending(hello, session, pinR, a, order);
    assert SignedFor(suite, session, ack, p);
    CompletionExact(suite, i, session, ack, p, B, ni, nr);
  }

  lemma HelloInputIgnoresSignature(rfc3339: string -> bool, session: string, e: SecureEnvelope, sig: Option<string>)
    requires HelloInput(rfc3339, session, e).Success? && OptionalHex(sig, 64)
    ensures HelloInput(rfc3339, session, e.(sig := sig)) == HelloInput(rfc3339, session, e)
  {
    hide Urn, FixedHex, Route, Labelled;
  }

  lemma AckInputIgnoresSignature(
      rfc3339: string -> bool, session: string, e: SecureEnvelope, hello: SecureEnvelope, sig: Option<string>)
    requires AckInput(rfc3339, session, e, hello).Success? && OptionalHex(sig, 64)
    ensures AckInput(rfc3339, session, e.(sig := sig), hello) == AckInput(rfc3339, session, e, hello)
  {
    hide Urn, FixedHex, Route, Labelled;
  }
}
