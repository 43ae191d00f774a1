/**
 Two guardians and the hostile edge between them, as a transition system. Whatever the
 edge reorders, repeats, drops or alters, each side's reports show a prefix of what the
 other side sealed (`src/secure/transport.rs`, `src/secure/session.rs`).
 */
module Channel {
  import opened Wrappers
  import opened Text
  import opened Secure
  import opened Crypto
  import opened Envelope
  import opened Sessions
  import opened Binding
  import opened Windows
  import opened Endpoints
  import opened Handshakes

  datatype Sent = Sent(envelope: SecureEnvelope, payload: Bytes)

  /**
   An endpoint with what it has sealed, the numbers it has encrypted under and what its reports
   have shown, by session, and the ids of all sessions it ever had.
   */
  datatype Party = Party(
    end: Endpoint, sent: map<string, seq<Sent>>, spent: map<string, seq<u64>>, shown: map<string, seq<Delivery>>, used: set<string>)

  datatype World = World(a: Party, b: Party)

  datatype Action =
    | Sealing(sid: string, contract: string, payload: Bytes, view: ContractView)
    | Receiving(env: SecureEnvelope, view: ContractView)
    | Observing(sid: string, view: ContractView)
    | Closing(sid: string)                     // through the transport
    | Losing(sid: string)                      // eviction or a context closed in the table
    | Gaining(sid: string, session: Session)   // a hello answered or a handshake completed

  /** One end of a session: what it holds when the handshake gives it to its guardian. */
  datatype Side = Side(sid: string, keys: Keys, initiator: bool, farPin: Bytes)

  /** What the two ends of one session have in common, and the keys both are known by. */
  datatype Deal = Deal(sid: string, keys: Keys, aInitiates: bool, pinA: Bytes, pinB: Bytes)

  function SideOf(deal: Deal, atA: bool): Side {
    if atA then Side(deal.sid, deal.keys, deal.aInitiates, deal.pinB)
    else Side(deal.sid, deal.keys, !deal.aInitiates, deal.pinA)
  }

  function Of<T>(m: map<string, seq<T>>, sid: string): seq<T> {
    if sid in m then m[sid] else []
  }

  function Extended<T>(m: map<string, seq<T>>, sid: string, more: seq<T>): map<string, seq<T>> {
    m[sid := Of(m, sid) + more]
  }

  // ------------------------------------------------------------------- steps

  ghost function Act(suite: Suite, p: Party, action: Action): Party
    requires WindowsBounded(p.end)
  {
    match action
    case Sealing(sid, contract, payload, view) =>
      var r := SealStep(suite, p.end, sid, contract, payload, view);
      var number := Spends(suite, p.end, sid, contract, payload, view);
      p.(end := r.0, sent := if r.1.Success? then Extended(p.sent, sid, [Sent(r.1.value, payload)]) else p.sent,
         spent := if number.Some? then Extended(p.spent, sid, [number.value]) else p.spent)
    case Receiving(env, view) =>
      var r := ReceiveStep(suite, p.end, env, view);
      p.(end := r.0, shown := if env.sid.Some? then Extended(p.shown, env.sid.value, r.1.delivered) else p.shown)
    case Observing(sid, view) =>
      var r := ObserveStep(suite, p.end, sid, view);
      p.(end := r.0, shown := Extended(p.shown, sid, r.1.delivered))
    case Closing(sid) => p.(end := Closed(p.end, sid))
    case Losing(sid) => p.(end := p.end.(active := p.end.active - {sid}))
    case Gaining(sid, session) => p.(end := p.end.(active := p.end.active[sid := session]), used := p.used + {sid})
  }

  /** What a party may have signed: the messages it released, and any hello or ack. */
  ghost predicate SignedBy(suite: Suite, p: Party, input: Bytes) {
    || (exists sid, i | sid in p.sent && 0 <= i < |p.sent[sid]| ::
          MessageInput(suite.rfc3339, p.sent[sid][i].envelope) == Success(input))
    || (exists context, hello :: HelloInput(suite.rfc3339, context, hello) == Success(input))
    || (exists context, ack, hello :: AckInput(suite.rfc3339, context, ack, hello) == Success(input))
  }

  /** Signatures under `pin` cannot be made without its owner. */
  ghost predicate Unforged(suite: Suite, owner: Party, pin: Bytes, env: SecureEnvelope) {
    var input := MessageInput(suite.rfc3339, env);
    input.Success? && env.sig.Some? && suite.verify(pin, input.value, env.sig.value) ==> SignedBy(suite, owner, input.value)
  }

  /** The session as one end first holds it. */
  predicate OwnEnd(side: Side, s: Session) {
    s.keys == side.keys && s.initiator == side.initiator && s.pin == side.farPin && s.sendSeq == 0
  }

  /** A step `p`, at this side of the session, may take while `other` is at the far end. */
  ghost predicate Allowed(suite: Suite, side: Side, p: Party, other: Party, action: Action) {
    match action
    case Receiving(env, _) => Unforged(suite, other, side.farPin, env)
    case Gaining(sid, s) => sid !in p.used && (sid == side.sid ==> OwnEnd(side, s))
    case _ => true
  }

  // ---------------------------------------------------------------- invariant

  /** The same message, signature aside. */
  ghost predicate Copy(env: SecureEnvelope, original: SecureEnvelope) {
    env.(sig := original.sig) == original
  }

  /** Every record of a sealed message is filed under its own session and number. */
  ghost predicate Filed(p: Party) {
    forall sid, i | sid in p.sent && 0 <= i < |p.sent[sid]| ::
      p.sent[sid][i].envelope.sid == Some(sid) && p.sent[sid][i].envelope.kind.Msg?
  }

  /** What has been sealed on a session: consecutive numbers, each carrying its payload. */
  ghost predicate Numbered(suite: Suite, key: Bytes, sent: seq<Sent>) {
    |sent| <= U64_MAX
    && forall i | 0 <= i < |sent| ::
         sent[i].envelope.seq_ == Some(i) && Carries(suite, key, sent[i].envelope, sent[i].payload)
  }

  /** The session's counter and the window's agree with what has been sealed. */
  ghost predicate SenderOk(suite: Suite, key: Bytes, sid: string, p: Party) {
    var sent := Of(p.sent, sid);
    && Filed(p) && Numbered(suite, key, sent)
    && (sid in p.end.active ==>
          && SealingKey(p.end.active[sid].keys, p.end.active[sid].initiator) == key
          && p.end.active[sid].sendSeq == |sent|
          && WindowOf(p.end, sid).sendSeq == |sent|)
  }

  /** Held envelopes are copies of sealed ones. */
  ghost predicate HoldsCopies(w: Window, sent: seq<Sent>) {
    forall n | n in w.held :: n < |sent| && Copy(w.held[n], sent[n].envelope)
  }

  /** The deliveries shown are the first ones sealed, in order. */
  ghost predicate Shows(shown: seq<Delivery>, sent: seq<Sent>) {
    |shown| <= |sent|
    && forall i | 0 <= i < |shown| ::
         shown[i].payload == sent[i].payload && shown[i].seq_ == i
         && shown[i].from == sent[i].envelope.from && shown[i].contract == sent[i].envelope.contract
  }

  ghost predicate ReceiverOk(key: Bytes, pin: Bytes, sid: string, p: Party, sent: seq<Sent>) {
    var shown := Of(p.shown, sid);
    && Shows(shown, sent)
    && (sid in p.end.active ==>
          var w := WindowOf(p.end, sid);
          && OpeningKey(p.end.active[sid].keys, p.end.active[sid].initiator) == key
          && p.end.active[sid].pin == pin
          && AtRest(w) && w.deliveryNext == |shown| && HoldsCopies(w, sent))
  }

  /** Nothing has happened on the session here. */
  ghost predicate Unopened(sid: string, p: Party) {
    && sid !in p.end.active && sid !in p.end.windows
    && Of(p.sent, sid) == [] && Of(p.spent, sid) == [] && Of(p.shown, sid) == []
  }

  /** Only a session the party once had leaves anything behind. */
  ghost predicate Known(sid: string, p: Party) {
    sid in p.used || Unopened(sid, p)
  }

  lemma ActKnown(suite: Suite, sid: string, p: Party, action: Action)
    requires AllAtRest(p.end) && Known(sid, p)
    ensures WindowsBounded(p.end) && Known(sid, Act(suite, p, action))
  {
    hide SealStep, ReceiveStep, ObserveStep, AllAtRest, AtRest;
    RestBounds(p.end);
    match action
    case Sealing(sid', contract, payload, view) =>
      SealFrame(suite, p.end, sid', contract, payload, view);
      SealCounts(suite, p.end, sid', contract, payload, view);
    case Receiving(env, view) =>
      ReceiveFrame(suite, p.end, env, view);
      if env.sid == Some(sid) && sid !in p.end.active {
        UnknownShowsNothing(suite, p.end, env, view);
      }
    case Observing(sid', view) =>
      ObserveFrame(suite, p.end, sid', view);
      UnknownObserved(suite, p.end, sid', view);
    case Closing(_) =>
    case Losing(_) =>
    case Gaining(_, _) =>
  }

  lemma UnknownShowsNothing(suite: Suite, e: Endpoint, env: SecureEnvelope, view: ContractView)
    requires WindowsBounded(e) && env.sid.Some? && env.sid.value !in e.active
    ensures ReceiveStep(suite, e, env, view).1.delivered == []
  {
    hide Check, Contradicts, Verify, Arrive, Valid;
    if Valid(suite.rfc3339, env) && env.kind.Msg? {
      ValidMessage(suite, env);
    }
  }

  lemma UnknownObserved(suite: Suite, e: Endpoint, sid: string, view: ContractView)
    requires WindowsBounded(e)
    ensures sid !in e.active ==> ObserveStep(suite, e, sid, view).1 == Rejection(SessionUnknown)
  {
    hide Drain;
  }

  // ------------------------------------------------------------- the sender

  /** Both counters move together: on from the number sealed, or not at all. */
  lemma SealCounts(suite: Suite, e: Endpoint, sid: string, contract: string, payload: Bytes, view: ContractView)
    requires AllAtRest(e)
    ensures var r := SealStep(suite, e, sid, contract, payload, view);
            match r.1
            case Success(env) =>
              sid in e.active && sid in r.0.active
              && var n := WindowOf(e, sid).sendSeq;
                 n == e.active[sid].sendSeq && n < U64_MAX
                 && r.0.active[sid].sendSeq == n + 1 && WindowOf(r.0, sid).sendSeq == n + 1
                 && env.sid == Some(sid) && env.seq_ == Some(n) && env.kind.Msg?
                 && Carries(suite, SealingKey(e.active[sid].keys, e.active[sid].initiator), env, payload)
            case Failure(_) =>
              sid in r.0.active ==>
                sid in e.active && r.0.active[sid].sendSeq == e.active[sid].sendSeq
                && WindowOf(r.0, sid).sendSeq == WindowOf(e, sid).sendSeq
  {
    hide Check, Contradicts, SealMessage, Carries, AtRest;
    if sid in e.active {
      WindowAtRest(e, sid);
      SealMessageCarries(suite, e.local, e.identity, sid, e.active[sid], WindowOf(e, sid).sendSeq, contract, payload);
    }
  }

  lemma SealingSender(
      suite: Suite, key: Bytes, sid: string, p: Party, sid': string, contract: string, payload: Bytes, view: ContractView)
    requires AllAtRest(p.end) && SenderOk(suite, key, sid, p)
    ensures WindowsBounded(p.end) && SenderOk(suite, key, sid, Act(suite, p, Sealing(sid', contract, payload, view)))
    ensures Of(p.sent, sid) <= Of(Act(suite, p, Sealing(sid', contract, payload, view)).sent, sid)
  {
    hide SealStep, AllAtRest, AtRest, Carries, Filed, Numbered;
    RestBounds(p.end);
    SealFrame(suite, p.end, sid', contract, payload, view);
    SealCounts(suite, p.end, sid', contract, payload, view);
    var r := SealStep(suite, p.end, sid', contract, payload, view);
    var p' := Act(suite, p, Sealing(sid', contract, payload, view));
    if r.1.Success? {
      FiledSnoc(p, sid', Sent(r.1.value, payload), p');
    } else {
      assert p'.sent == p.sent;
      FiledByRecords(p, p');
    }
    if sid' == sid {
      if r.1.Success? && sid in p.end.active {
        NumberedSnoc(suite, key, Of(p.sent, sid), Sent(r.1.value, payload));
      }
    } else {
      assert Of(p'.sent, sid) == Of(p.sent, sid);
      assert Untouched(p.end, p'.end, sid);
    }
  }

  lemma FiledSnoc(p: Party, sid: string, record: Sent, p': Party)
    requires Filed(p) && p'.sent == Extended(p.sent, sid, [record])
    requires record.envelope.sid == Some(sid) && record.envelope.kind.Msg?
    ensures Filed(p')
  {
  }

  lemma FiledByRecords(p: Party, p': Party)
    requires Filed(p) && p'.sent == p.sent
    ensures Filed(p')
  {
  }

  lemma NumberedSnoc(suite: Suite, key: Bytes, sent: seq<Sent>, record: Sent)
    requires Numbered(suite, key, sent) && |sent| < U64_MAX && record.envelope.seq_ == Some(|sent|)
    requires Carries(suite, key, record.envelope, record.payload)
    ensures Numbered(suite, key, sent + [record])
  {
    hide Carries;
  }

  /** A session is gained once, under this sealing key and before anything is sealed. */
  ghost predicate Begins(key: Bytes, sid: string, p: Party, action: Action) {
    action.Gaining? && action.sid == sid ==>
      sid !in p.used && SealingKey(action.session.keys, action.session.initiator) == key && action.session.sendSeq == 0
  }

  lemma ActSender(suite: Suite, key: Bytes, sid: string, p: Party, action: Action)
    requires AllAtRest(p.end) && SenderOk(suite, key, sid, p) && Known(sid, p) && Begins(key, sid, p, action)
    ensures WindowsBounded(p.end) && SenderOk(suite, key, sid, Act(suite, p, action))
    ensures Of(p.sent, sid) <= Of(Act(suite, p, action).sent, sid)
  {
    hide SealStep, ReceiveStep, ObserveStep, AllAtRest, AtRest, Carries, Numbered;
    RestBounds(p.end);
    match action
    case Sealing(sid', contract, payload, view) => SealingSender(suite, key, sid, p, sid', contract, payload, view);
    case Receiving(env, view) =>
      ReceiveFrame(suite, p.end, env, view);
      assert env.sid != Some(sid) ==> Untouched(p.end, Act(suite, p, action).end, sid);
    case Observing(sid', view) =>
      ObserveFrame(suite, p.end, sid', view);
      assert sid' != sid ==> Untouched(p.end, Act(suite, p, action).end, sid);
    case Closing(_) =>
    case Losing(_) =>
    case Gaining(_, _) =>
  }

  /** Numbers are encrypted under in order, and all but perhaps a last one, which ended the session, went out. */
  ghost predicate SpentOk(sid: string, p: Party) {
    var sent, spent := Of(p.sent, sid), Of(p.spent, sid);
    && (forall i | 0 <= i < |spent| :: spent[i] == i) && |sent| <= |spent| <= |sent| + 1
    && (sid in p.end.active ==> |spent| == |sent|)
  }

  lemma SealSpends(suite: Suite, e: Endpoint, sid: string, contract: string, payload: Bytes, view: ContractView)
    requires AllAtRest(e)
    ensures var r := SealStep(suite, e, sid, contract, payload, view);
            match Spends(suite, e, sid, contract, payload, view)
            case Some(n) => sid in e.active && n == e.active[sid].sendSeq && (r.1.Failure? ==> sid !in r.0.active)
            case None => r.1.Failure?
  {
    hide Check, Contradicts, SealMessage, Encrypts, AtRest;
    if sid in e.active {
      var n := WindowOf(Retained(e), sid).sendSeq;
      SpentOrEnded(suite, e.local, e.identity, sid, e.active[sid], n, contract, payload);
      EncryptsNext(suite, e.local, sid, e.active[sid], n, contract, payload);
    }
  }

  lemma EncryptsNext(suite: Suite, local: string, sid: string, s: Session, n: u64, contract: string, payload: Bytes)
    ensures Encrypts(suite, local, sid, s, n, contract, payload) ==> n == s.sendSeq < U64_MAX
  {
  }

  lemma ActSpends(suite: Suite, key: Bytes, sid: string, p: Party, action: Action)
    requires AllAtRest(p.end) && SenderOk(suite, key, sid, p) && SpentOk(sid, p) && Known(sid, p) && Begins(key, sid, p, action)
    ensures WindowsBounded(p.end) && SpentOk(sid, Act(suite, p, action))
  {
    hide SealStep, ReceiveStep, ObserveStep, Spends, AllAtRest, AtRest, Carries, Numbered, Filed;
    RestBounds(p.end);
    match action
    case Sealing(sid', contract, payload, view) =>
      SealFrame(suite, p.end, sid', contract, payload, view);
      SealSpends(suite, p.end, sid', contract, payload, view);
    case Receiving(env, view) => ReceiveFrame(suite, p.end, env, view);
    case Observing(sid', view) => ObserveFrame(suite, p.end, sid', view);
    case Closing(_) =>
    case Losing(_) =>
    case Gaining(_, _) =>
  }

  // ----------------------------------------------------------- the receiver

  /** Under an unforgeable key a verified message is a copy of a sealed one. */
  lemma VerifiedIsCopy(
      suite: Suite, key: Bytes, pin: Bytes, sid: string, local: string, s: Session, other: Party, env: SecureEnvelope)
    returns (n: nat)
    requires Filed(other) && Numbered(suite, key, Of(other.sent, sid)) && Unforged(suite, other, pin, env)
    requires Verify(suite, local, s, env).Success? && s.pin == pin && env.sid == Some(sid)
    ensures n < |Of(other.sent, sid)| && Copy(env, Of(other.sent, sid)[n].envelope) && env.seq_ == Some(n)
  {
    hide Carries;
    ValidMessage(suite, env);
    var input := MessageInput(suite.rfc3339, env).value;
    forall context, hello ensures HelloInput(suite.rfc3339, context, hello) != Success(input) {
      SigningInputsDisjoint(suite.rfc3339, env, context, hello, context, hello, hello);
    }
    forall context, ack, hello ensures AckInput(suite.rfc3339, context, ack, hello) != Success(input) {
      SigningInputsDisjoint(suite.rfc3339, env, context, hello, context, ack, hello);
    }
    var sid', i :| sid' in other.sent && 0 <= i < |other.sent[sid']|
                   && MessageInput(suite.rfc3339, other.sent[sid'][i].envelope) == Success(input);
    MessageInputInjective(suite.rfc3339, env, other.sent[sid'][i].envelope);
    n := i;
  }

  /** What opens out of copies of sealed messages shows what was sealed. */
  lemma ShowsMore(
      suite: Suite, key: Bytes, local: string, sid: string, s: Session, w: Window, view: ContractView,
      shown: seq<Delivery>, more: seq<Delivery>, sent: seq<Sent>)
    requires OpensWhatItSeals(suite) && OpeningKey(s.keys, s.initiator) == key
    requires Numbered(suite, key, sent) && Shows(shown, sent) && HoldsCopies(w, sent)
    requires forall i | 0 <= i < |more| :: DeliveredFrom(suite, local, sid, s, w, view, more[i], |shown| + i)
    ensures Shows(shown + more, sent)
  {
    hide Check, Opened, Carries;
    if more != [] {
      assert DeliveredFrom(suite, local, sid, s, w, view, more[|more| - 1], |shown| + (|more| - 1));
    }
    forall i | 0 <= i < |more| ensures
      |shown| + i < |sent| && more[i].payload == sent[|shown| + i].payload && more[i].seq_ == |shown| + i
      && more[i].from == sent[|shown| + i].envelope.from && more[i].contract == sent[|shown| + i].envelope.contract
    {
      var n := |shown| + i;
      assert DeliveredFrom(suite, local, sid, s, w, view, more[i], n);
      OpensWhatWasSealed(suite, local, s, w.held[n], sent[n].envelope, key, sent[n].payload);
    }
  }

  lemma HeldCopiesMoved(w: Window, t: Window, count: nat, env: SecureEnvelope, n: nat, sent: seq<Sent>)
    requires AtRest(t) && Moved(w, t, count, env) && HoldsCopies(w, sent)
    requires env.seq_ == Some(n) && n < |sent| && Copy(env, sent[n].envelope)
    ensures HoldsCopies(t, sent)
  {
    forall m | m in t.held ensures m < |sent| && Copy(t.held[m], sent[m].envelope) {
      assert t.held[m].seq_ == Some(m);
    }
  }

  /** The receiving half of a session that holds only copies of what was sealed. */
  ghost predicate SlotOk(key: Bytes, pin: Bytes, s: Session, w: Window, shown: seq<Delivery>, sent: seq<Sent>) {
    OpeningKey(s.keys, s.initiator) == key && s.pin == pin
    && AtRest(w) && w.deliveryNext == |shown| && HoldsCopies(w, sent)
  }

  ghost predicate OutcomeOk(key: Bytes, pin: Bytes, o: Outcome, shown: seq<Delivery>, sent: seq<Sent>) {
    Shows(shown + o.report.delivered, sent)
    && (o.rest.Some? ==> SlotOk(key, pin, o.rest.value.0, o.rest.value.1, shown + o.report.delivered, sent))
  }

  lemma OneMoreCopy(w: Window, n: nat, env: SecureEnvelope, sent: seq<Sent>)
    requires HoldsCopies(w, sent) && n < |sent| && Copy(env, sent[n].envelope) && n <= U64_MAX
    ensures HoldsCopies(w.(held := w.held[n := env]), sent)
  {
    hide Copy;
  }

  /** What moving on keeps of a slot, short of what is held. */
  lemma SlotMoved(key: Bytes, pin: Bytes, s: Session, w: Window, s': Session, t: Window, count: nat, env: SecureEnvelope)
    requires OpeningKey(s.keys, s.initiator) == key && s.pin == pin && SameSession(s, s') && Moved(w, t, count, env)
    ensures OpeningKey(s'.keys, s'.initiator) == key && s'.pin == pin && t.deliveryNext == w.deliveryNext + count
  {
  }

  lemma ArrivalOk(
      suite: Suite, key: Bytes, pin: Bytes, local: string, sid: string, s: Session, w: Window,
      env: SecureEnvelope, n: nat, view: ContractView, shown: seq<Delivery>, sent: seq<Sent>)
    requires OpensWhatItSeals(suite) && Numbered(suite, key, sent) && Shows(shown, sent)
    requires SlotOk(key, pin, s, w, shown, sent)
    requires n < |sent| && Copy(env, sent[n].envelope) && env.seq_ == Some(n)
    ensures OutcomeOk(key, pin, Arrive(suite, local, sid, s, w, env, view), shown, sent)
  {
    hide Check, Contradicts, Arrive, Carries, Numbered, Shows, AtRest, Copy, HoldsCopies, Moved, DeliveredFrom;
    hide WaitsForContract, ShowsAbort, SameSession, OpensWhatItSeals;
    RestIsBounded(w);
    var o := Arrive(suite, local, sid, s, w, env, view);
    ArriveRests(suite, local, sid, s, w, env, view);
    if o.rest.Some? {
      HeldCopiesMoved(w, o.rest.value.1, |o.report.delivered|, env, n, sent);
      SlotMoved(key, pin, s, w, o.rest.value.0, o.rest.value.1, |o.report.delivered|, env);
    }
    var w' := w.(held := w.held[n := env]);
    OneMoreCopy(w, n, env, sent);
    forall i | 0 <= i < |o.report.delivered|
      ensures DeliveredFrom(suite, local, sid, s, w', view, o.report.delivered[i], |shown| + i)
    {
      ArriveContents(suite, local, sid, s, w, env, view, i);
    }
    ShowsMore(suite, key, local, sid, s, w', view, shown, o.report.delivered, sent);
  }

  lemma DrainOk(
      suite: Suite, key: Bytes, pin: Bytes, local: string, sid: string, s: Session, w: Window,
      view: ContractView, shown: seq<Delivery>, sent: seq<Sent>)
    requires OpensWhatItSeals(suite) && Numbered(suite, key, sent) && Shows(shown, sent)
    requires SlotOk(key, pin, s, w, shown, sent)
    ensures OutcomeOk(key, pin, Drain(suite, local, sid, s, w, view), shown, sent)
  {
    hide Check, Contradicts, Drain, Carries, Numbered, Shows, AtRest, Copy, Consistent, ReportsHeld, WaitsForContract;
    RestOrdered(w);
    DrainRests(suite, local, sid, s, w, view);
    var o := Drain(suite, local, sid, s, w, view);
    forall i | 0 <= i < |o.report.delivered|
      ensures DeliveredFrom(suite, local, sid, s, w, view, o.report.delivered[i], |shown| + i)
    {
      DrainContents(suite, local, sid, s, w, view, i);
    }
    ShowsMore(suite, key, local, sid, s, w, view, shown, o.report.delivered, sent);
  }

  /** What an outcome may do to a session: nothing is left at odds, and its sending half stays. */
  ghost predicate Settled(s: Session, w: Window, o: Outcome) {
    o.rest.Some? ==> AtRest(o.rest.value.1) && SameSession(s, o.rest.value.0) && o.rest.value.1.sendSeq == w.sendSeq
  }

  /** An outcome that is in order, put back and reported. */
  lemma OutcomeShown(key: Bytes, pin: Bytes, sid: string, p: Party, p': Party, e1: Endpoint, o: Outcome, sent: seq<Sent>)
    requires StepOn(p.end, e1, None) && sid in p.end.active && Settled(p.end.active[sid], WindowOf(p.end, sid), o)
    requires OutcomeOk(key, pin, o, Of(p.shown, sid), sent)
    requires p'.end == Put(e1, sid, o.rest) && p'.shown == Extended(p.shown, sid, o.report.delivered)
    ensures ReceiverOk(key, pin, sid, p', sent)
  {
    hide AtRest, Shows, HoldsCopies, Put, StepOn, SameSession;
    OutcomeStep(p.end, e1, sid, o.rest);
    assert Of(p'.shown, sid) == Of(p.shown, sid) + o.report.delivered;
  }

  lemma SlotOfReceiver(key: Bytes, pin: Bytes, sid: string, p: Party, sent: seq<Sent>)
    requires AllAtRest(p.end) && ReceiverOk(key, pin, sid, p, sent) && sid in p.end.active
    ensures SlotOk(key, pin, p.end.active[sid], WindowOf(p.end, sid), Of(p.shown, sid), sent) && Shows(Of(p.shown, sid), sent)
    ensures Bounded(WindowOf(p.end, sid))
  {
    hide AtRest, HoldsCopies, Shows;
    RestIsBounded(WindowOf(p.end, sid));
  }

  /** The outcome of a message that verifies. */
  lemma VerifiedArrival(
      suite: Suite, key: Bytes, pin: Bytes, sid: string, p: Party, other: Party, env: SecureEnvelope, view: ContractView)
    requires OpensWhatItSeals(suite) && AllAtRest(p.end) && SenderOk(suite, key, sid, other)
    requires ReceiverOk(key, pin, sid, p, Of(other.sent, sid)) && Unforged(suite, other, pin, env)
    requires sid in p.end.active && env.sid == Some(sid) && Verify(suite, p.end.local, p.end.active[sid], env).Success?
    ensures Bounded(WindowOf(p.end, sid)) && env.seq_.Some?
    ensures var o := Arrive(suite, p.end.local, sid, p.end.active[sid], WindowOf(p.end, sid), env, view);
            OutcomeOk(key, pin, o, Of(p.shown, sid), Of(other.sent, sid))
            && Settled(p.end.active[sid], WindowOf(p.end, sid), o)
  {
    hide Check, Contradicts, Verify, Arrive, Valid, Carries, Numbered, AtRest, Shows, HoldsCopies, Copy, Unforged, OutcomeOk;
    hide SlotOk, SameSession;
    var s, w := p.end.active[sid], WindowOf(p.end, sid);
    var n := VerifiedIsCopy(suite, key, pin, sid, p.end.local, s, other, env);
    SlotOfReceiver(key, pin, sid, p, Of(other.sent, sid));
    WindowAtRest(p.end, sid);
    ArrivalOk(suite, key, pin, p.end.local, sid, s, w, env, n, view, Of(p.shown, sid), Of(other.sent, sid));
    ArriveRests(suite, p.end.local, sid, s, w, env, view);
  }

  lemma ReceivingOk(
      suite: Suite, key: Bytes, pin: Bytes, sid: string, p: Party, other: Party, env: SecureEnvelope, view: ContractView)
    requires OpensWhatItSeals(suite) && AllAtRest(p.end) && SenderOk(suite, key, sid, other)
    requires ReceiverOk(key, pin, sid, p, Of(other.sent, sid)) && Unforged(suite, other, pin, env)
    requires sid in p.end.active && env.sid == Some(sid) && Valid(suite.rfc3339, env) && env.kind.Msg?
    requires Verify(suite, p.end.local, p.end.active[sid], env).Success?
    ensures WindowsBounded(p.end) && ReceiverOk(key, pin, sid, Act(suite, p, Receiving(env, view)), Of(other.sent, sid))
  {
    hide Verify, Arrive, Valid, AtRest, Put, Unforged, ReceiveStep, Retained, ReceiverOk, SenderOk, OutcomeOk, Settled, StepOn;
    RestBounds(p.end);
    VerifiedArrival(suite, key, pin, sid, p, other, env, view);
    ReceiveVerified(suite, p.end, env, view, sid);
    RetainedStep(p.end);
    var o := Arrive(suite, p.end.local, sid, p.end.active[sid], WindowOf(p.end, sid), env, view);
    OutcomeShown(key, pin, sid, p, Act(suite, p, Receiving(env, view)), Retained(p.end), o, Of(other.sent, sid));
  }

  lemma ObservingOk(
      suite: Suite, key: Bytes, pin: Bytes, sid: string, p: Party, sent: seq<Sent>, view: ContractView)
    requires OpensWhatItSeals(suite) && AllAtRest(p.end) && Numbered(suite, key, sent)
    requires ReceiverOk(key, pin, sid, p, sent) && sid in p.end.active && sid in p.end.windows
    ensures WindowsBounded(p.end) && ReceiverOk(key, pin, sid, Act(suite, p, Observing(sid, view)), sent)
  {
    hide Drain, Carries, Numbered, AtRest, Put, Consistent, ReportsHeld, WaitsForContract, ReceiverOk, OutcomeOk, StepOn;
    hide Ordered, SlotOk, Shows, SameSession;
    RestBounds(p.end);
    var e, s, w := p.end, p.end.active[sid], p.end.windows[sid];
    SlotOfReceiver(key, pin, sid, p, sent);
    RestOrdered(w);
    DrainOk(suite, key, pin, e.local, sid, s, w, view, Of(p.shown, sid), sent);
    DrainRests(suite, e.local, sid, s, w, view);
    SelfStep(e);
    OutcomeShown(key, pin, sid, p, Act(suite, p, Observing(sid, view)), e, Drain(suite, e.local, sid, s, w, view), sent);
  }

  lemma SelfStep(e: Endpoint)
    requires AllAtRest(e)
    ensures StepOn(e, e, None)
  {
  }

  lemma SealedWindow(e: Endpoint, e': Endpoint, sid: string, sid': string)
    requires AllAtRest(e) && StepOn(e, e', Some(sid')) && (sid' in e'.active ==> KeepsReceiving(e, e', sid'))
    ensures sid in e'.active ==>
              && sid in e.active && e'.active[sid] == e.active[sid].(sendSeq := e'.active[sid].sendSeq)
              && AtRest(WindowOf(e', sid)) && WindowOf(e', sid).held == WindowOf(e, sid).held
              && WindowOf(e', sid).deliveryNext == WindowOf(e, sid).deliveryNext
  {
    hide AtRest;
    if sid in e'.active {
      assert sid' != sid ==> Untouched(e, e', sid);
      WindowAtRest(e', sid);
    }
  }

  /** A step that leaves the receiving half of the session as it is and shows nothing on it. */
  lemma NothingShown(key: Bytes, pin: Bytes, sid: string, p: Party, p': Party, sent: seq<Sent>)
    requires ReceiverOk(key, pin, sid, p, sent) && Of(p'.shown, sid) == Of(p.shown, sid) && Untouched(p.end, p'.end, sid)
    ensures ReceiverOk(key, pin, sid, p', sent)
  {
    hide AtRest, Shows, HoldsCopies;
  }

  /** A message that does not verify is rejected, and nothing but stale windows is dropped. */
  lemma RejectedStep(suite: Suite, e: Endpoint, env: SecureEnvelope, view: ContractView, sid: string)
    requires WindowsBounded(e) && env.sid == Some(sid)
    requires Valid(suite.rfc3339, env) && env.kind.Msg? && sid in e.active ==> Verify(suite, e.local, e.active[sid], env).Failure?
    ensures ReceiveStep(suite, e, env, view).0 == Retained(e) && ReceiveStep(suite, e, env, view).1.delivered == []
  {
    hide Check, Contradicts, Verify, Arrive, Valid, Retained;
    if Valid(suite.rfc3339, env) && env.kind.Msg? {
      ValidMessage(suite, env);
    }
  }

  /** A message that does not concern the session, or does not verify, shows nothing on it. */
  lemma IdleReceive(
      suite: Suite, key: Bytes, pin: Bytes, sid: string, p: Party, other: Party, env: SecureEnvelope, view: ContractView)
    requires AllAtRest(p.end) && ReceiverOk(key, pin, sid, p, Of(other.sent, sid))
    requires env.sid == Some(sid) && Valid(suite.rfc3339, env) && env.kind.Msg? && sid in p.end.active ==>
               Verify(suite, p.end.local, p.end.active[sid], env).Failure?
    ensures WindowsBounded(p.end) && ReceiverOk(key, pin, sid, Act(suite, p, Receiving(env, view)), Of(other.sent, sid))
  {
    hide Verify, Valid, AtRest, ReceiveStep, Retained, ReceiverOk, AllAtRest, WindowOf, SameSession;
    RestBounds(p.end);
    var p' := Act(suite, p, Receiving(env, view));
    if env.sid == Some(sid) {
      RejectedStep(suite, p.end, env, view, sid);
      RetainedStep(p.end);
      assert Of(p.shown, sid) + [] == Of(p.shown, sid);
    } else {
      ReceiveFrame(suite, p.end, env, view);
    }
    NothingShown(key, pin, sid, p, p', Of(other.sent, sid));
  }

  /** Sealing leaves the receiving half alone. */
  lemma SealingReceiver(
      suite: Suite, key: Bytes, pin: Bytes, sid: string, p: Party, sent: seq<Sent>,
      sid': string, contract: string, payload: Bytes, view: ContractView)
    requires AllAtRest(p.end) && ReceiverOk(key, pin, sid, p, sent)
    ensures WindowsBounded(p.end) && ReceiverOk(key, pin, sid, Act(suite, p, Sealing(sid', contract, payload, view)), sent)
  {
    hide SealStep, Spends, AtRest, Shows, StepOn;
    RestBounds(p.end);
    SealFrame(suite, p.end, sid', contract, payload, view);
    SealedWindow(p.end, SealStep(suite, p.end, sid', contract, payload, view).0, sid, sid');
  }

  lemma ObservingReceiver(suite: Suite, key: Bytes, pin: Bytes, sid: string, p: Party, sent: seq<Sent>, sid': string, view: ContractView)
    requires OpensWhatItSeals(suite) && AllAtRest(p.end) && Numbered(suite, key, sent) && ReceiverOk(key, pin, sid, p, sent)
    ensures WindowsBounded(p.end) && ReceiverOk(key, pin, sid, Act(suite, p, Observing(sid', view)), sent)
  {
    hide Drain, ObserveStep, AllAtRest, AtRest, Numbered, Shows, HoldsCopies, ReceiverOk, Untouched, OpensWhatItSeals;
    RestBounds(p.end);
    if sid' == sid && sid in p.end.active && sid in p.end.windows {
      ObservingOk(suite, key, pin, sid, p, sent, view);
    } else {
      ObservedElsewhere(suite, p.end, sid', view, sid);
      assert Of(p.shown, sid) + [] == Of(p.shown, sid);
      NothingShown(key, pin, sid, p, Act(suite, p, Observing(sid', view)), sent);
    }
  }

  lemma ObservedElsewhere(suite: Suite, e: Endpoint, sid': string, view: ContractView, sid: string)
    requires AllAtRest(e) && !(sid' == sid && sid in e.active && sid in e.windows)
    ensures WindowsBounded(e) && Untouched(e, ObserveStep(suite, e, sid', view).0, sid)
    ensures sid' == sid ==> ObserveStep(suite, e, sid', view).1.delivered == []
  {
    hide Drain, AtRest;
    RestBounds(e);
    ObserveFrame(suite, e, sid', view);
  }

  lemma ActReceiver(suite: Suite, side: Side, p: Party, other: Party, action: Action)
    requires OpensWhatItSeals(suite) && AllAtRest(p.end) && Known(side.sid, p) && Allowed(suite, side, p, other, action)
    requires SenderOk(suite, OpeningKey(side.keys, side.initiator), side.sid, other)
    requires ReceiverOk(OpeningKey(side.keys, side.initiator), side.farPin, side.sid, p, Of(other.sent, side.sid))
    ensures WindowsBounded(p.end)
    ensures ReceiverOk(OpeningKey(side.keys, side.initiator), side.farPin, side.sid, Act(suite, p, action), Of(other.sent, side.sid))
  {
    hide SealStep, Spends, ReceiveStep, ObserveStep, Verify, Valid, Carries, Numbered, AllAtRest, AtRest, Unforged, Shows, HoldsCopies;
    RestBounds(p.end);
    var e, sid, pin := p.end, side.sid, side.farPin;
    var key := OpeningKey(side.keys, side.initiator);
    match action
    case Sealing(sid', contract, payload, view) =>
      SealingReceiver(suite, key, pin, sid, p, Of(other.sent, sid), sid', contract, payload, view);
    case Receiving(env, view) =>
      if env.sid == Some(sid) && Valid(suite.rfc3339, env) && env.kind.Msg? && sid in e.active
         && Verify(suite, e.local, e.active[sid], env).Success? {
        ReceivingOk(suite, key, pin, sid, p, other, env, view);
      } else {
        IdleReceive(suite, key, pin, sid, p, other, env, view);
      }
    case Observing(sid', view) => ObservingReceiver(suite, key, pin, sid, p, Of(other.sent, sid), sid', view);
    case Closing(_) =>
    case Losing(_) =>
    case Gaining(_, _) =>
      FreshAtRest();
      NothingHeld(Of(other.sent, sid));
  }

  lemma NothingHeld(sent: seq<Sent>)
    ensures HoldsCopies(FRESH, sent)
  {
  }

  // -------------------------------------------------------------- whole runs

  ghost predicate Ready(w: World) {
    AllAtRest(w.a.end) && AllAtRest(w.b.end)
  }

  lemma ActRests(suite: Suite, p: Party, action: Action)
    requires AllAtRest(p.end)
    ensures WindowsBounded(p.end) && AllAtRest(Act(suite, p, action).end)
  {
    hide SealStep, ReceiveStep, ObserveStep, AtRest;
    RestBounds(p.end);
    match action
    case Sealing(sid, contract, payload, view) => SealFrame(suite, p.end, sid, contract, payload, view);
    case Receiving(env, view) => ReceiveFrame(suite, p.end, env, view);
    case Observing(sid, view) => ObserveFrame(suite, p.end, sid, view);
    case Closing(_) =>
    case Losing(_) =>
    case Gaining(_, _) =>
  }

  /** One party acts; the other does not move. */
  ghost function Turn(suite: Suite, w: World, atA: bool, action: Action): (w': World)
    requires Ready(w)
    ensures Ready(w')
  {
    ActRests(suite, w.a, action);
    ActRests(suite, w.b, action);
    if atA then w.(a := Act(suite, w.a, action)) else w.(b := Act(suite, w.b, action))
  }

  ghost function After(suite: Suite, w: World, turns: seq<(bool, Action)>): (w': World)
    requires Ready(w)
    ensures Ready(w')
    decreases turns
  {
    if turns == [] then w else After(suite, Turn(suite, w, turns[0].0, turns[0].1), turns[1..])
  }

  ghost predicate MayAct(suite: Suite, deal: Deal, w: World, atA: bool, action: Action) {
    if atA then Allowed(suite, SideOf(deal, true), w.a, w.b, action) else Allowed(suite, SideOf(deal, false), w.b, w.a, action)
  }

  /** Every turn is one its party may take, given what the other one has signed so far. */
  ghost predicate Legal(suite: Suite, deal: Deal, w: World, turns: seq<(bool, Action)>)
    requires Ready(w)
    decreases turns
  {
    turns == []
    || (MayAct(suite, deal, w, turns[0].0, turns[0].1)
        && Legal(suite, deal, Turn(suite, w, turns[0].0, turns[0].1), turns[1..]))
  }

  /** Neither end has the session yet, or has ever done anything on it. */
  ghost predicate Before(deal: Deal, w: World) {
    Ready(w) && Filed(w.a) && Filed(w.b) && Unopened(deal.sid, w.a) && Unopened(deal.sid, w.b)
  }

  ghost predicate DirectionOk(suite: Suite, key: Bytes, pin: Bytes, sid: string, from: Party, to: Party) {
    SenderOk(suite, key, sid, from) && ReceiverOk(key, pin, sid, to, Of(from.sent, sid))
  }

  ghost predicate WorldOk(suite: Suite, deal: Deal, w: World) {
    Ready(w) && Known(deal.sid, w.a) && Known(deal.sid, w.b)
    && DirectionOk(suite, SealingKey(deal.keys, deal.aInitiates), deal.pinA, deal.sid, w.a, w.b)
    && DirectionOk(suite, SealingKey(deal.keys, !deal.aInitiates), deal.pinB, deal.sid, w.b, w.a)
  }

  lemma ReceiverMonotone(key: Bytes, pin: Bytes, sid: string, p: Party, sent: seq<Sent>, more: seq<Sent>)
    requires ReceiverOk(key, pin, sid, p, sent) && sent <= more
    ensures ReceiverOk(key, pin, sid, p, more)
  {
    hide AtRest;
  }

  /** One party's turn keeps both directions in order. */
  lemma ActBothWays(suite: Suite, side: Side, pin: Bytes, p: Party, other: Party, action: Action)
    requires OpensWhatItSeals(suite) && AllAtRest(p.end) && Known(side.sid, p) && Allowed(suite, side, p, other, action)
    requires DirectionOk(suite, SealingKey(side.keys, side.initiator), pin, side.sid, p, other)
    requires DirectionOk(suite, OpeningKey(side.keys, side.initiator), side.farPin, side.sid, other, p)
    ensures WindowsBounded(p.end)
    ensures DirectionOk(suite, SealingKey(side.keys, side.initiator), pin, side.sid, Act(suite, p, action), other)
    ensures DirectionOk(suite, OpeningKey(side.keys, side.initiator), side.farPin, side.sid, other, Act(suite, p, action))
  {
    hide Act, SenderOk, ReceiverOk, AllAtRest, Unforged, Known;
    RestBounds(p.end);
    var key := SealingKey(side.keys, side.initiator);
    ActSender(suite, key, side.sid, p, action);
    ActReceiver(suite, side, p, other, action);
    ReceiverMonotone(key, pin, side.sid, other, Of(p.sent, side.sid), Of(Act(suite, p, action).sent, side.sid));
  }

  lemma TurnOk(suite: Suite, deal: Deal, w: World, atA: bool, action: Action)
    requires OpensWhatItSeals(suite) && WorldOk(suite, deal, w) && MayAct(suite, deal, w, atA, action)
    ensures WorldOk(suite, deal, Turn(suite, w, atA, action))
  {
    hide Act, DirectionOk, AllAtRest, Allowed, Known;
    if atA {
      ActKnown(suite, deal.sid, w.a, action);
      ActBothWays(suite, SideOf(deal, true), deal.pinA, w.a, w.b, action);
    } else {
      ActKnown(suite, deal.sid, w.b, action);
      ActBothWays(suite, SideOf(deal, false), deal.pinB, w.b, w.a, action);
    }
  }

  lemma {:induction false} RunOk(suite: Suite, deal: Deal, w: World, turns: seq<(bool, Action)>)
    requires OpensWhatItSeals(suite) && WorldOk(suite, deal, w) && Legal(suite, deal, w, turns)
    ensures WorldOk(suite, deal, After(suite, w, turns))
    decreases turns
  {
    hide DirectionOk, AllAtRest, Turn, MayAct, Known;
    if turns != [] {
      TurnOk(suite, deal, w, turns[0].0, turns[0].1);
      RunOk(suite, deal, Turn(suite, w, turns[0].0, turns[0].1), turns[1..]);
    }
  }

  function SealedPayloads(sent: seq<Sent>): seq<Bytes> {
    if sent == [] then [] else [sent[0].payload] + SealedPayloads(sent[1..])
  }

  function ShownPayloads(shown: seq<Delivery>): seq<Bytes> {
    if shown == [] then [] else [shown[0].payload] + ShownPayloads(shown[1..])
  }

  lemma {:induction false} PayloadPrefix(shown: seq<Delivery>, sent: seq<Sent>)
    requires |shown| <= |sent| && forall i | 0 <= i < |shown| :: shown[i].payload == sent[i].payload
    ensures ShownPayloads(shown) <= SealedPayloads(sent)
  {
    if shown != [] {
      PayloadPrefix(shown[1..], sent[1..]);
    }
  }

  /**
   Whole-channel safety. From before either end has the session, over every interleaving of
   sealing, receiving, observing, closing, losing and gaining sessions at either end - the two
   ends gain this one at any times of their own, or never - and with any envelopes whatever
   arriving as long as signatures cannot be forged: each side's reports show a prefix of the
   payloads the other side sealed, in order and once each.
   */
  lemma ChannelSafety(suite: Suite, deal: Deal, w: World, turns: seq<(bool, Action)>)
    requires OpensWhatItSeals(suite) && Before(deal, w) && Legal(suite, deal, w, turns)
    ensures var a, b := After(suite, w, turns).a, After(suite, w, turns).b;
            && Shows(Of(b.shown, deal.sid), Of(a.sent, deal.sid)) && Shows(Of(a.shown, deal.sid), Of(b.sent, deal.sid))
            && ShownPayloads(Of(b.shown, deal.sid)) <= SealedPayloads(Of(a.sent, deal.sid))
            && ShownPayloads(Of(a.shown, deal.sid)) <= SealedPayloads(Of(b.sent, deal.sid))
  {
    RunOk(suite, deal, w, turns);
    var w' := After(suite, w, turns);
    PayloadPrefix(Of(w'.b.shown, deal.sid), Of(w'.a.sent, deal.sid));
    PayloadPrefix(Of(w'.a.shown, deal.sid), Of(w'.b.sent, deal.sid));
  }

  // ---------------------------------------------------------------- lockstep

  /** One party's own actions, whatever the rest of the world does between them. */
  ghost function Alone(suite: Suite, p: Party, actions: seq<Action>): (p': Party)
    requires AllAtRest(p.end)
    ensures AllAtRest(p'.end)
    decreases actions
  {
    if actions == [] then p
    else
      ActRests(suite, p, actions[0]);
      Alone(suite, Act(suite, p, actions[0]), actions[1..])
  }

  /** No session id comes twice, and a session on `sid` starts counting at zero. */
  ghost predicate GainsFresh(sid: string, used: set<string>, actions: seq<Action>)
    decreases actions
  {
    actions == []
    || (match actions[0]
        case Gaining(sid', s) =>
          sid' !in used && (sid' == sid ==> s.sendSeq == 0) && GainsFresh(sid, used + {sid'}, actions[1..])
        case _ => GainsFresh(sid, used, actions[1..]))
  }

  /** The key the session is sealed under, once it is gained. */
  ghost function GainedKey(sid: string, actions: seq<Action>): Bytes
    decreases actions
  {
    if actions == [] then []
    else if actions[0].Gaining? && actions[0].sid == sid then SealingKey(actions[0].session.keys, actions[0].session.initiator)
    else GainedKey(sid, actions[1..])
  }

  lemma {:induction false} AloneSends(suite: Suite, key: Bytes, sid: string, p: Party, actions: seq<Action>)
    requires AllAtRest(p.end) && Known(sid, p) && SenderOk(suite, key, sid, p) && SpentOk(sid, p)
    requires GainsFresh(sid, p.used, actions) && (sid in p.used || key == GainedKey(sid, actions))
    ensures SenderOk(suite, key, sid, Alone(suite, p, actions)) && SpentOk(sid, Alone(suite, p, actions))
    decreases actions
  {
    hide SenderOk, SpentOk, Known, AllAtRest;
    if actions != [] {
      ActRests(suite, p, actions[0]);
      ActKnown(suite, sid, p, actions[0]);
      ActSender(suite, key, sid, p, actions[0]);
      ActSpends(suite, key, sid, p, actions[0]);
      AloneSends(suite, key, sid, Act(suite, p, actions[0]), actions[1..]);
    }
  }

  /**
   Sender lockstep, for either party: from before it has the session, and whatever arrives, it
   encrypts under the numbers 0, 1, 2, ... in order, so never twice under one nonce, failures
   included; the messages it releases carry these numbers, and at most a last ciphertext is not
   released, which ends the session; while the session lives both counters equal their number.
   */
  lemma SenderLockstep(suite: Suite, sid: string, p: Party, actions: seq<Action>, i: nat, j: nat)
    requires AllAtRest(p.end) && Filed(p) && Unopened(sid, p) && GainsFresh(sid, p.used, actions)
    ensures var p' := Alone(suite, p, actions);
            var sent, spent := Of(p'.sent, sid), Of(p'.spent, sid);
            && (i < |spent| ==> spent[i] == i)
            && (i < j < |spent| ==> Nonce96(spent[i]) != Nonce96(spent[j]))
            && |sent| <= |spent| <= |sent| + 1
            && (i < |sent| ==> sent[i].envelope.seq_ == Some(i) && i < U64_MAX)
            && (sid in p'.end.active ==>
                  p'.end.active[sid].sendSeq == WindowOf(p'.end, sid).sendSeq == |sent| == |spent|)
  {
    AloneSends(suite, GainedKey(sid, actions), sid, p, actions);
    var spent := Of(Alone(suite, p, actions).spent, sid);
    if i < j < |spent| && Nonce96(spent[i]) == Nonce96(spent[j]) {
      NonceInjective(spent[i], spent[j]);
    }
  }

  function ActionsOf(turns: seq<(bool, Action)>, atA: bool): seq<Action>
    decreases turns
  {
    if turns == [] then []
    else (if turns[0].0 == atA then [turns[0].1] else []) + ActionsOf(turns[1..], atA)
  }

  /** In a run of both, each party goes through its own actions: what holds of it alone holds there. */
  lemma {:induction false} EachAlone(suite: Suite, deal: Deal, w: World, turns: seq<(bool, Action)>, atA: bool)
    requires Ready(w) && Legal(suite, deal, w, turns)
    ensures var p := if atA then w.a else w.b;
            var p' := if atA then After(suite, w, turns).a else After(suite, w, turns).b;
            AllAtRest(p.end) && p' == Alone(suite, p, ActionsOf(turns, atA)) && GainsFresh(deal.sid, p.used, ActionsOf(turns, atA))
    decreases turns
  {
    hide AllAtRest, Act, Unforged;
    if turns != [] {
      var own, action := turns[0].0 == atA, turns[0].1;
      EachAlone(suite, deal, Turn(suite, w, turns[0].0, action), turns[1..], atA);
      if own {
        var p := if atA then w.a else w.b;
        RestBounds(p.end);
        UsedGrows(suite, p, action);
        var rest := ActionsOf(turns[1..], atA);
        assert ActionsOf(turns, atA)[0] == action && ActionsOf(turns, atA)[1..] == rest;
      } else {
        assert ActionsOf(turns, atA) == ActionsOf(turns[1..], atA);
      }
    }
  }

  lemma UsedGrows(suite: Suite, p: Party, action: Action)
    requires WindowsBounded(p.end)
    ensures Act(suite, p, action).used == if action.Gaining? then p.used + {action.sid} else p.used
  {
    hide SealStep, ReceiveStep, ObserveStep;
  }

  // --------------------------------------------------------------- handshake

  /**
   A handshake makes a deal: when the answering guardian pinned the initiator's key and the
   initiator pinned the answering one's, the session of the answer and that of the completion
   are the two ends of one session, and each guardian may gain its own whenever it comes to
   it, as long as it never had a session of that id.
   */
  lemma HandshakeConnects(
      suite: Suite, pinA: Bytes, pinB: Bytes, w: World,
      initiator: string, idA: Bytes, responder: string, idB: Bytes,
      session: string, a: Option<Bytes>, ni: Option<Bytes>, p: Pending, ack: SecureEnvelope,
      session': string, hello': SecureEnvelope, b: Option<Bytes>, nr: Option<Bytes>, order: u64)
    requires KeysAgree(suite)
    requires MakeHello(suite, initiator, idA, responder, session, a, ni) == Success(p.hello) && Some(p.ephemeral) == a
    requires p.pin == pinB && Acceptable(suite, initiator, session, ack).Success? && SignedFor(suite, session, ack, p)
    requires Completion(suite, initiator, session, ack, p).Success?
    requires Answer(suite, responder, idB, session', hello', pinA, b, nr).Success?
    requires var answered := Answer(suite, responder, idB, session', hello', pinA, b, nr).value.1;
             AckInput(suite.rfc3339, session', answered.ack, hello').Success?
             && AckInput(suite.rfc3339, session', answered.ack, hello') == AckInput(suite.rfc3339, session, ack, p.hello)
    ensures var (sid, s) := Completion(suite, initiator, session, ack, p).value;
            var (sid', t) := Answer(suite, responder, idB, session', hello', pinA, b, nr).value;
            var deal := Deal(sid, t.keys, true, pinA, pinB);
            && sid' == sid && t.state.AckSent? && s.state.Established?
            && (sid !in w.a.used ==> MayAct(suite, deal, w, true, Gaining(sid, s)))
            && (sid !in w.b.used ==> MayAct(suite, deal, w, false, Gaining(sid, t.(order := order))))
  {
    hide MakeHello, Acceptable, SignedFor, Answer, AckInput;
    HandshakeAgreement(suite, initiator, idA, responder, idB, session, a, ni, p, ack, session', hello', pinA, b, nr);
    PinsKept(suite, initiator, responder, idB, session, p, ack, session', hello', pinA, b, nr);
  }

  lemma PinsKept(
      suite: Suite, initiator: string, responder: string, idB: Bytes, session: string, p: Pending, ack: SecureEnvelope,
      session': string, hello': SecureEnvelope, pin': Bytes, b: Option<Bytes>, nr: Option<Bytes>)
    ensures Completion(suite, initiator, session, ack, p).Success? ==>
              Completion(suite, initiator, session, ack, p).value.1.pin == p.pin
              && Completion(suite, initiator, session, ack, p).value.1.state.Established?
    ensures Answer(suite, responder, idB, session', hello', pin', b, nr).Success? ==>
              Answer(suite, responder, idB, session', hello', pin', b, nr).value.1.pin == pin'
              && Answer(suite, responder, idB, session', hello', pin', b, nr).value.1.state.AckSent?
  {
  }

  /** A counter at its end closes the session instead of going round. */
  lemma ExhaustedCloses(suite: Suite, e: Endpoint, sid: string, contract: string, payload: Bytes, view: ContractView)
    requires sid in e.active && WindowOf(e, sid).sendSeq == e.active[sid].sendSeq == U64_MAX
    ensures var r := SealStep(suite, e, sid, contract, payload, view);
            sid !in r.0.active && sid !in r.0.windows
            && r.1 == Failure(if Contradicts(suite.sha256, view, contract) then Check(suite.sha256, view, contract).error
                              else SessionExhausted)
  {
    hide Check, Contradicts, SealMessage;
  }
}
