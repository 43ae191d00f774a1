/** That honest messages get through: what one guardian seals, the other one shows. */
module ChannelLaws {
  import opened Wrappers
  import opened Text
  import opened Secure
  import opened Crypto
  import opened Envelope
  import opened Sessions
  import opened Binding
  import opened SessionLaws
  import opened Windows
  import opened WindowLaws
  import opened Endpoints

  /** The two ends of one session, each naming the other, with keys in opposite directions. */
  predicate Facing(a: Endpoint, b: Endpoint, sid: string) {
    && sid in a.active && sid in b.active && a.active[sid].peer == b.local && b.active[sid].peer == a.local
    && a.active[sid].keys == b.active[sid].keys && a.active[sid].initiator != b.active[sid].initiator
  }

  /** The peer's signature on a message verifies under the pin. */
  predicate SignatureGood(suite: Suite, pin: Bytes, env: SecureEnvelope) {
    var input := MessageInput(suite.rfc3339, env);
    input.Success? && env.sig.Some? && suite.verify(pin, input.value, env.sig.value)
  }

  lemma HonestOpens(suite: Suite, a: Endpoint, b: Endpoint, sid: string, contract: string, payload: Bytes, env: SecureEnvelope)
    requires OpensWhatItSeals(suite) && Facing(a, b, sid)
    requires SealMessage(suite, a.local, a.identity, sid, a.active[sid], a.active[sid].sendSeq, contract, payload).envelope == Success(env)
    requires SignatureGood(suite, b.active[sid].pin, env)
    ensures Valid(suite.rfc3339, env) && env.kind.Msg? && env.sid == Some(sid) && env.seq_ == Some(a.active[sid].sendSeq)
    ensures env.from == a.local && env.contract == contract && a.active[sid].sendSeq < U64_MAX
    ensures Verify(suite, b.local, b.active[sid], env).Success? && Opened(suite, b.local, b.active[sid], env) == Success(payload)
  {
    hide SealMessage, Header, HexText;
    var s, t := a.active[sid], b.active[sid];
    SealMessageCarries(suite, a.local, a.identity, sid, s, s.sendSeq, contract, payload);
    var aad := Utf8(HeaderText(env).value);
    var c := suite.encrypt(SealingKey(s.keys, s.initiator), Nonce96(s.sendSeq), aad, payload).value;
    HexRoundTrip(c);
    assert suite.decrypt(OpeningKey(t.keys, t.initiator), Nonce96(s.sendSeq), aad, c) == Some(payload);
  }

  /**
   Sealed, then shown. A message sealed at one end, whose signature verifies under the pin of
   the other and which arrives there in its turn, with nothing waiting and its binding
   accepted, is shown with its sender, binding, number and payload, and moves the window on.
   */
  lemma SealedThenShown(
      suite: Suite, a: Endpoint, b: Endpoint, sid: string, contract: string, payload: Bytes, view: ContractView, env: SecureEnvelope)
    requires OpensWhatItSeals(suite) && Facing(a, b, sid) && AllAtRest(b)
    requires SealMessage(suite, a.local, a.identity, sid, a.active[sid], a.active[sid].sendSeq, contract, payload).envelope == Success(env)
    requires SignatureGood(suite, b.active[sid].pin, env) && Check(suite.sha256, view, contract).Success?
    requires Bounded(WindowOf(b, sid)) && WindowOf(b, sid).held == map[] && Next(WindowOf(b, sid)) == a.active[sid].sendSeq
    ensures WindowsBounded(b)
    ensures var (b', report) := ReceiveStep(suite, b, env, view);
            var n := a.active[sid].sendSeq;
            && report == ReceiveReport([Delivery(sid, a.local, contract, n, payload)], [], [], None)
            && sid in b'.active && b'.active[sid] == Confirmed(b.active[sid])
            && WindowOf(b', sid) == WindowOf(b, sid).(high := Some(n), deliveryNext := n + 1)
  {
    hide SealMessage, Verify, Opened, Check, Arrive, Valid, Header, ReceiveStep, Retained, AtRest, SignatureGood;
    RestBounds(b);
    WindowAtRest(b, sid);
    HonestOpens(suite, a, b, sid, contract, payload, env);
    InOrderDelivery(suite, b.local, sid, b.active[sid], WindowOf(b, sid), env, view);
    ReceiveVerified(suite, b, env, view, sid);
  }

  // -------------------------------------------------- what each step answers

  /** No session and no window of a session is different. */
  ghost predicate SessionsStand(e: Endpoint, e': Endpoint) {
    e'.active == e.active && e'.local == e.local && e'.identity == e.identity
    && forall sid | sid in e.active :: WindowOf(e', sid) == WindowOf(e, sid)
  }

  /** The session and its window are gone, and no other. */
  ghost predicate SessionGone(e: Endpoint, e': Endpoint, sid: string) {
    e'.active == e.active - {sid} && sid !in e'.windows && e'.local == e.local && e'.identity == e.identity
    && forall other | other in e.active && other != sid :: WindowOf(e', other) == WindowOf(e, other)
  }

  lemma RetainedStands(e: Endpoint)
    ensures SessionsStand(e, Retained(e))
  {
  }

  /**
   What a message that is no message of a known session answers: it is rejected with the first
   thing wrong with it, its shape, its session, its names or its signature, and nothing changes.
   */
  lemma RejectedMessage(suite: Suite, e: Endpoint, env: SecureEnvelope, view: ContractView)
    requires AllAtRest(e)
    ensures WindowsBounded(e)
    ensures var (e', report) := ReceiveStep(suite, e, env, view);
            var fault := if !Valid(suite.rfc3339, env) || !env.kind.Msg? then Some(SchemaViolation)
                         else if env.sid.value !in e.active then Some(SessionUnknown)
                         else
                           var s := e.active[env.sid.value];
                           if env.from != s.peer || env.to != e.local then Some(IdentityMismatch)
                           else if !MessageVouched(suite, env, s.pin) then Some(BadMessageSignature)
                           else None;
            fault.Some? ==> SessionsStand(e, e') && report == ReceiveReport([], [], [fault.value], None)
  {
    hide Verify, Arrive, Valid, AtRest, MessageVouched, Put, Retained, SessionsStand, WindowOf;
    RestBounds(e);
    RetainedStands(e);
    if Valid(suite.rfc3339, env) && env.kind.Msg? {
      ValidMessage(suite, env);
      if env.sid.value in e.active {
        VerifyExact(suite, e.local, e.active[env.sid.value], env);
      }
    }
  }

  /**
   What sealing answers before it comes to encrypting: an unknown session is refused, a binding
   that is ruled out and the last number end the session, and a binding that is accepted or
   still pending lets the message through under the next number.
   */
  lemma SealAnswers(suite: Suite, e: Endpoint, sid: string, contract: string, payload: Bytes, view: ContractView)
    ensures var (e', r) := SealStep(suite, e, sid, contract, payload, view);
            var n := WindowOf(e, sid).sendSeq;
            if sid !in e.active then SessionsStand(e, e') && r == Failure(SessionUnknown)
            else if Check(suite.sha256, view, contract) == Failure(ContractMismatch) then
              SessionGone(e, e', sid) && r == Failure(ContractMismatch)
            else if n == 0xFFFF_FFFF_FFFF_FFFF then SessionGone(e, e', sid) && r == Failure(SessionExhausted)
            else
              var sealed := SealMessage(suite, e.local, e.identity, sid, e.active[sid], n, contract, payload);
              && r == sealed.envelope && (sid in e'.active <==> sealed.session.Some?)
              && (sid in e'.active ==> e'.active[sid] == sealed.session.value)
              && WindowOf(e', sid) == WindowOf(e, sid).(sendSeq := if r.Success? then n + 1 else n)
  {
    hide SealMessage, Check;
    OnlyTwoErrors(suite.sha256, view, contract);
  }

  /** Looking again at a session that is not there drops what is left of it, and says so; without a window there is nothing to show. */
  lemma NothingToObserve(suite: Suite, e: Endpoint, sid: string, view: ContractView)
    requires AllAtRest(e) && (sid !in e.active || sid !in e.windows)
    ensures WindowsBounded(e)
    ensures var (e', report) := ObserveStep(suite, e, sid, view);
            && SessionsStand(e, e') && sid !in e'.windows
            && report == ReceiveReport([], [], if sid in e.active then [] else [SessionUnknown], None)
  {
    hide Drain, AtRest;
    RestBounds(e);
  }

  /** Whatever came, a window is kept only for a session that is there; sealing leaves behind at most that of the session it ended. */
  lemma StaleWindowsDropped(suite: Suite, e: Endpoint, env: SecureEnvelope, sid: string, contract: string, payload: Bytes, view: ContractView)
    requires WindowsBounded(e)
    ensures var e' := ReceiveStep(suite, e, env, view).0; e'.windows.Keys <= e'.active.Keys
    ensures var e' := SealStep(suite, e, sid, contract, payload, view).0; e'.windows.Keys <= e'.active.Keys + {sid}
  {
    hide Verify, Arrive, Valid, SealMessage, Check, Contradicts;
  }
}
