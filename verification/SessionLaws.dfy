/**
 What sealing, verifying and opening one message answer, in terms of bytes, keys and numbers
 (`src/secure/session.rs`, `src/secure/crypto.rs`).
 */
module SessionLaws {
  import opened Wrappers
  import opened Text
  import opened Secure
  import opened Canon
  import opened Crypto
  import opened Envelope
  import opened EnvelopeLaws
  import opened Sessions

  /** Four zero bytes, and eight that read as the number. */
  ghost predicate NonceOf(nonce: Bytes, n: u64) {
    |nonce| == 12 && nonce[..4] == [0, 0, 0, 0] && BigEndianValue(nonce[4..]) == n
  }

  lemma NonceLayout(n: u64)
    ensures NonceOf(Nonce96(n), n)
  {
    assert Power256(8) == U64_MAX + 1 by {
      assert Power256(2) == 0x1_0000;
      assert Power256(4) == 0x1_0000_0000;
      assert Power256(6) == 0x1_0000_0000_0000;
    }
    BigEndianRoundTrip(n, 8);
    assert Nonce96(n)[4..] == BigEndian(n, 8);
  }

  /** The signature of a message verifies under the pin. */
  ghost predicate MessageVouched(suite: Suite, env: SecureEnvelope, pin: Bytes) {
    var input := MessageInput(suite.rfc3339, env);
    input.Success? && env.sig.Some? && suite.verify(pin, input.value, env.sig.value)
  }

  lemma MessageInputBuilt(rfc3339: string -> bool, env: SecureEnvelope)
    requires Valid(rfc3339, env) && env.kind.Msg?
    ensures MessageInput(rfc3339, env).Success?
  {
    hide Canonical, Urn, FixedHex;
    HeaderWellFormed(env);
  }

  /** A message verifies exactly when it is valid, from the peer to this guardian, and signed under the pin. */
  lemma VerifyExact(suite: Suite, local: string, s: Session, env: SecureEnvelope)
    ensures Verify(suite, local, s, env)
            == if !Valid(suite.rfc3339, env) || !env.kind.Msg? then Failure(SchemaViolation)
               else if env.from != s.peer || env.to != local then Failure(IdentityMismatch)
               else if MessageVouched(suite, env, s.pin) then Success(Unit)
               else Failure(BadMessageSignature)
  {
    hide MessageInput, Header;
    if Valid(suite.rfc3339, env) && env.kind.Msg? {
      MessageInputBuilt(suite.rfc3339, env);
    }
  }

  lemma MessageParts(rfc3339: string -> bool, env: SecureEnvelope)
    requires Valid(rfc3339, env) && env.kind.Msg?
    ensures env.sid.Some? && env.seq_.Some? && env.ct.Some? && env.sig.Some? && Header(rfc3339, env)
  {
  }

  /**
   What opening a verified message answers: the last number is refused, and any other message
   opens exactly when its ciphertext decrypts under the peer's sending key, the nonce of its
   number and the header that was signed.
   */
  lemma OpenedExact(suite: Suite, local: string, s: Session, env: SecureEnvelope) returns (header: string, nonce: Bytes, c: Bytes)
    requires Verify(suite, local, s, env).Success?
    ensures MessageInput(suite.rfc3339, env) == Success(Utf8("HACP-SECURE/v1/msg" + header) + c) && SpelledBy(env.ct, c)
    ensures env.seq_.Some? && NonceOf(nonce, env.seq_.value)
    ensures Opened(suite, local, s, env)
            == if env.seq_.value == 0xFFFF_FFFF_FFFF_FFFF then Failure(SessionExhausted)
               else
                 match suite.decrypt(if s.initiator then s.keys.r2i else s.keys.i2r, nonce, Utf8(header), c)
                 case Some(plain) => Success(plain)
                 case None => Failure(TamperDetected)
  {
    hide MessageInput, Header, Utf8, AadBytes, HexText, Nonce96;
    VerifyExact(suite, local, s, env);
    MessageParts(suite.rfc3339, env);
    var w;
    header, w, c := MessageSigns(suite.rfc3339, env);
    nonce := Nonce96(env.seq_.value);
    NonceLayout(env.seq_.value);
    HexRoundTrip(c);
  }

  /** A message before it is encrypted. */
  function Bare(local: string, peer: string, sid: string, n: u64, contract: string): SecureEnvelope {
    SecureEnvelope(1, Msg, local, peer, contract, Some(sid), Some(n), None, None, None, None, None)
  }

  lemma BareShape(rfc3339: string -> bool, local: string, peer: string, sid: string, n: u64, contract: string)
    ensures Header(rfc3339, Bare(local, peer, sid, n, contract)) <==> Urn(local) && Urn(peer) && FixedHex(sid, 16) && ContractField(contract)
  {
    hide Urn, FixedHex, ContractField;
  }

  lemma AadBuilt(rfc3339: string -> bool, e: SecureEnvelope)
    ensures HeaderText(e).Success?
    ensures AadBytes(rfc3339, e) == if Header(rfc3339, e) then Success(Utf8(HeaderText(e).value)) else Failure(SchemaViolation)
  {
    hide Header, Utf8, Canonical;
    HeaderWellFormed(e);
  }

  lemma CipherHeader(rfc3339: string -> bool, bare: SecureEnvelope, c: Bytes, sig: Option<string>)
    requires Header(rfc3339, bare) && bare.kind.Msg? && bare.sig.None? && bare.ct.None?
    ensures Header(rfc3339, bare.(ct := Some(HexText(c)), sig := sig)) <==> |c| >= 16 && OptionalHex(sig, 64)
  {
    hide Urn, FixedHex, TimeField, ContractField, HexText;
    HexRoundTrip(c);
  }

  lemma SealedInput(rfc3339: string -> bool, bare: SecureEnvelope, c: Bytes)
    requires Header(rfc3339, bare) && bare.kind.Msg? && bare.sig.None? && bare.ct.None?
    ensures var input := MessageInput(rfc3339, bare.(ct := Some(HexText(c))));
            (input.Success? <==> |c| >= 16) && (input.Failure? ==> input.error == SchemaViolation)
  {
    hide FixedHex, Header, HexText, AadBytes, Labelled, HeaderText, HeaderJson, Utf8;
    var env := bare.(ct := Some(HexText(c)));
    HexRoundTrip(c);
    AadBuilt(rfc3339, env);
    CipherHeader(rfc3339, bare, c, None);
  }

  lemma SealedShape(rfc3339: string -> bool, bare: SecureEnvelope, c: Bytes, sig: string)
    requires Header(rfc3339, bare) && bare.kind.Msg? && bare.sig.None? && bare.ct.None?
    ensures Valid(rfc3339, bare.(ct := Some(HexText(c)), sig := Some(sig))) <==> |c| >= 16 && FixedHex(sig, 64)
  {
    hide FixedHex, Header, HexText;
    CipherHeader(rfc3339, bare, c, Some(sig));
  }

  /**
   What sealing answers. Under any number but the session's next it is refused, and the session
   stays; at the last number the session ends; a message that cannot be formed or encrypted
   leaves the session as it was; and once there is a ciphertext, under the sending key of this
   end and the nonce of the number, either the signed message goes out and the number is passed,
   or the session ends.
   */
  lemma SealExact(
      suite: Suite, local: string, identity: Bytes, sid: string, s: Session, n: u64, contract: string, payload: Bytes)
    returns (nonce: Bytes)
    ensures NonceOf(nonce, n)
    ensures var r := SealMessage(suite, local, identity, sid, s, n, contract, payload);
            var bare := Bare(local, s.peer, sid, n, contract);
            if n == 0xFFFF_FFFF_FFFF_FFFF || s.sendSeq == 0xFFFF_FFFF_FFFF_FFFF then r == SealResult(None, Failure(SessionExhausted))
            else if n != s.sendSeq then r == SealResult(Some(s), Failure(ReplayRejected))
            else if !(Urn(local) && Urn(s.peer) && FixedHex(sid, 16) && ContractField(contract)) then
              r == SealResult(Some(s), Failure(SchemaViolation))
            else
              HeaderText(bare).Success?
              && match suite.encrypt(if s.initiator then s.keys.i2r else s.keys.r2i, nonce, Utf8(HeaderText(bare).value), payload)
                 case None => r == SealResult(Some(s), Failure(GuardianUnavailable))
                 case Some(c) =>
                   var env := bare.(ct := Some(HexText(c)));
                   var input := MessageInput(suite.rfc3339, env);
                   if |c| < 16 then r == SealResult(None, Failure(SchemaViolation))
                   else
                     input.Success?
                     && var sig := suite.sign(identity, input.value);
                        r == if FixedHex(sig, 64) then SealResult(Some(s.(sendSeq := n + 1)), Success(env.(sig := Some(sig))))
                             else SealResult(None, Failure(SchemaViolation))
  {
    hide MessageInput, Header, Valid, Utf8, AadBytes, HexText, Nonce96, HeaderText, Urn, FixedHex, ContractField;
    nonce := Nonce96(n);
    NonceLayout(n);
    var bare := Bare(local, s.peer, sid, n, contract);
    BareShape(suite.rfc3339, local, s.peer, sid, n, contract);
    AadBuilt(suite.rfc3339, bare);
    HeaderWellFormed(bare);
    if n == s.sendSeq && n < U64_MAX && Header(suite.rfc3339, bare) {
      var c := suite.encrypt(if s.initiator then s.keys.i2r else s.keys.r2i, nonce, Utf8(HeaderText(bare).value), payload);
      if c.Some? {
        var env := bare.(ct := Some(HexText(c.value)));
        SealedInput(suite.rfc3339, bare, c.value);
        if |c.value| >= 16 {
          SealedShape(suite.rfc3339, bare, c.value, suite.sign(identity, MessageInput(suite.rfc3339, env).value));
        }
      }
    }
  }
}
