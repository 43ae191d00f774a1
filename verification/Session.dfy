/**
 Established sessions as values: what sealing, verifying and opening one message
 does to a session (`src/secure/session.rs`).
 */
module Sessions {
  import opened Wrappers
  import opened Text
  import opened Secure
  import opened Crypto
  import opened Envelope

  datatype SessionState = AckSent | Established

  datatype Session = Session(
    peer: string, hacpSession: string, state: SessionState, sendSeq: u64,
    keys: Keys, pin: Bytes, initiator: bool, order: u64,
    hello: SecureEnvelope, ack: SecureEnvelope)

  datatype SessionInfo = SessionInfo(
    sid: string, peer: string, local: string, hacpSession: string, state: SessionState, sendSeq: u64)

  function Confirmed(s: Session): Session {
    s.(state := Established)
  }

  /** Routing and signature of a message, before anything else is decided about it. */
  function Verify(suite: Suite, local: string, s: Session, env: SecureEnvelope): Result<Unit, SecureError> {
    if !Valid(suite.rfc3339, env) || !env.kind.Msg? then Failure(SchemaViolation)
    else if env.from != s.peer || env.to != local then Failure(IdentityMismatch)
    else
      var input :- MessageInput(suite.rfc3339, env);
      if suite.verify(s.pin, input, env.sig.value) then Success(Unit) else Failure(BadMessageSignature)
  }

  function OpenVerified(suite: Suite, s: Session, env: SecureEnvelope): Result<Bytes, SecureError> {
    if env.seq_.None? then Failure(SchemaViolation)
    else if env.seq_.value == U64_MAX then Failure(SessionExhausted)
    else
      var aad :- AadBytes(suite.rfc3339, env);
      var ct :- Decoded(env.ct);
      Open(suite, s.keys, s.initiator, env.seq_.value, aad, ct)
  }

  /** What opening yields; a success also confirms the session. */
  function Opened(suite: Suite, local: string, s: Session, env: SecureEnvelope): Result<Bytes, SecureError> {
    var _ :- Verify(suite, local, s, env);
    OpenVerified(suite, s, env)
  }

  /** The envelope before encryption. */
  function Draft(local: string, peer: string, sid: string, n: u64, contract: string): SecureEnvelope {
    SecureEnvelope(1, Msg, local, peer, contract, Some(sid), Some(n), None, None, None, None, None)
  }

  /** The session afterwards, gone when sealing closed it, and the envelope or the failure. */
  datatype SealResult = SealResult(session: Option<Session>, envelope: Result<SecureEnvelope, SecureError>)

  function SealMessage(
      suite: Suite, local: string, identity: Bytes, sid: string, s: Session,
      n: u64, contract: string, payload: Bytes): SealResult
  {
    if n == U64_MAX || s.sendSeq == U64_MAX then SealResult(None, Failure(SessionExhausted))
    else if n != s.sendSeq then SealResult(Some(s), Failure(ReplayRejected))
    else
      var draft := Draft(local, s.peer, sid, n, contract);
      match AadBytes(suite.rfc3339, draft)
      case Failure(e) => SealResult(Some(s), Failure(e))
      case Success(aad) =>
        match Seal(suite, s.keys, s.initiator, n, aad, payload)
        case Failure(e) => SealResult(Some(s), Failure(e))
        case Success(ct) =>
          // The nonce is spent from here on, whatever becomes of the envelope.
          match Finished(suite, identity, draft.(ct := Some(HexText(ct))))
          case Failure(e) => SealResult(None, Failure(e))
          case Success(env) => SealResult(Some(s.(sendSeq := s.sendSeq + 1)), Success(env))
  }

  /** Whether sealing gets as far as a ciphertext, which spends the number, whatever becomes of the envelope. */
  predicate Encrypts(suite: Suite, local: string, sid: string, s: Session, n: u64, contract: string, payload: Bytes) {
    n == s.sendSeq < U64_MAX
    && var aad := AadBytes(suite.rfc3339, Draft(local, s.peer, sid, n, contract));
       aad.Success? && Seal(suite, s.keys, s.initiator, n, aad.value, payload).Success?
  }

  /** A number that is spent either goes out with its envelope and is passed, or ends the session. */
  lemma SpentOrEnded(
      suite: Suite, local: string, identity: Bytes, sid: string, s: Session, n: u64, contract: string, payload: Bytes)
    ensures var r := SealMessage(suite, local, identity, sid, s, n, contract, payload);
            if Encrypts(suite, local, sid, s, n, contract, payload) then
              r.session == if r.envelope.Success? then Some(s.(sendSeq := n + 1)) else None
            else r.envelope.Failure? && (r.session.None? || r.session == Some(s))
  {
    hide AadBytes, Seal, Finished;
  }

  function Finished(suite: Suite, identity: Bytes, env: SecureEnvelope): Result<SecureEnvelope, SecureError> {
    var input :- MessageInput(suite.rfc3339, env);
    var done := env.(sig := Some(suite.sign(identity, input)));
    if Valid(suite.rfc3339, done) then Success(done) else Failure(SchemaViolation)
  }

  // ------------------------------------------------------------- properties

  /** `env` carries `payload` under `key` with the nonce of its own sequence number. */
  ghost predicate Carries(suite: Suite, key: Bytes, env: SecureEnvelope, payload: Bytes) {
    env.kind.Msg? && env.sid.Some? && env.seq_.Some? && HeaderText(env).Success?
    && var c := suite.encrypt(key, Nonce96(env.seq_.value), Utf8(HeaderText(env).value), payload);
       c.Some? && env.ct == Some(HexText(c.value))
  }

  /** A sealed message carries the payload under the session's next number and nothing else changes. */
  lemma SealMessageCarries(
      suite: Suite, local: string, identity: Bytes, sid: string, s: Session, n: u64, contract: string, payload: Bytes)
    ensures var r := SealMessage(suite, local, identity, sid, s, n, contract, payload);
            match r.envelope
            case Failure(_) => r.session.None? || r.session == Some(s)
            case Success(env) =>
              n == s.sendSeq < U64_MAX && r.session == Some(s.(sendSeq := n + 1))
              && env.sid == Some(sid) && env.seq_ == Some(n) && env.from == local && env.to == s.peer
              && env.contract == contract && Valid(suite.rfc3339, env)
              && Carries(suite, SealingKey(s.keys, s.initiator), env, payload)
  {
    var r := SealMessage(suite, local, identity, sid, s, n, contract, payload);
    if r.envelope.Success? {
      var draft := Draft(local, s.peer, sid, n, contract);
      assert Values(draft) == Values(r.envelope.value);
    }
  }

  /** Opening what the peer sealed, signature aside, gives back what it carries. */
  lemma OpensWhatWasSealed(
      suite: Suite, local: string, s: Session, env: SecureEnvelope, original: SecureEnvelope, key: Bytes, payload: Bytes)
    requires OpensWhatItSeals(suite) && OpeningKey(s.keys, s.initiator) == key
    requires Carries(suite, key, original, payload) && env.(sig := original.sig) == original
    ensures Opened(suite, local, s, env).Success? ==> Opened(suite, local, s, env).value == payload
  {
    if Opened(suite, local, s, env).Success? {
      assert Values(env) == Values(original);
      var n, aad := env.seq_.value, Utf8(HeaderText(original).value);
      var c := suite.encrypt(key, Nonce96(n), aad, payload).value;
      HexRoundTrip(c);
      assert suite.decrypt(key, Nonce96(n), aad, c) == Some(payload);
    }
  }
}
