/**
 What a receive window does with each message, said of numbers and of what is held
 (`src/secure/transport.rs`): who is turned away, who waits, who ends the session, and that
 nothing stays behind that could be shown.
 */
module WindowLaws {
  import opened Collections
  import opened Wrappers
  import opened Secure
  import opened Crypto
  import opened Envelope
  import opened Sessions
  import opened Binding
  import opened Windows

  // ------------------------------------------------------- who is turned away

  /** A number that was passed or is held is answered as a replay, and nothing changes. */
  lemma ReplayLaw(suite: Suite, local: string, sid: string, s: Session, w: Window, env: SecureEnvelope, view: ContractView, n: u64)
    requires AtRest(w) && env.seq_ == Some(n) && (n < Next(w) || n in w.held)
    ensures Arrive(suite, local, sid, s, w, env, view) == Outcome(Some((s, w)), ReceiveReport([], [], [ReplayRejected], None))
  {
    hide Check, Contradicts, Opened, Drain;
  }

  /** The last number there is ends the session. */
  lemma LastNumberLaw(suite: Suite, local: string, sid: string, s: Session, w: Window, env: SecureEnvelope, view: ContractView)
    requires AtRest(w) && env.seq_ == Some(0xFFFF_FFFF_FFFF_FFFF)
    ensures Arrive(suite, local, sid, s, w, env, view) == Outcome(None, ReceiveReport([], [], [], Some(SessionExhausted)))
  {
    hide Check, Contradicts, Opened, Drain;
  }

  // ---------------------------------------------------- messages that are early

  /**
   A message ahead of its turn. With 64 held it overflows and ends the session. Otherwise it is
   held exactly when nothing waits beyond the hole yet or something beyond it waits already; a
   message beyond all that waits would widen the gap, and ends the session.
   */
  lemma EarlyLaw(suite: Suite, local: string, sid: string, s: Session, w: Window, env: SecureEnvelope, view: ContractView, n: u64)
    requires AtRest(w) && env.seq_ == Some(n) && Next(w) < n < 0xFFFF_FFFF_FFFF_FFFF && n !in w.held
    ensures var o := Arrive(suite, local, sid, s, w, env, view);
            && (|w.held| == 64 ==> o == Outcome(None, ReceiveReport([], [], [], Some(HoldOverflow))))
            && (|w.held| < 64 ==>
                  if (forall m | m in w.held :: m < Next(w)) || (exists m :: m in w.held && m > n) then
                    o == Outcome(Some((s, w.(held := w.held[n := env]))),
                                 ReceiveReport([], [Held(sid, n, "SequencePending")], [], None))
                  else o == Outcome(None, ReceiveReport([], [], [], Some(SequenceGap))))
  {
    hide Check, Contradicts, Opened, Drain;
    if m :| m in w.held && m > n {
      assert m in Gaps(w);
    }
    if !forall m | m in w.held :: m < Next(w) {
      var m :| m in w.held && m >= Next(w);
      assert m in Gaps(w);
    }
  }

  // ------------------------------------------------------ a message in its turn

  /**
   The message whose turn it is. One that does not open is rejected and nothing changes; one
   whose binding is ruled out ends the session, and so does one that finds 64 held.
   */
  lemma TurnLaw(suite: Suite, local: string, sid: string, s: Session, w: Window, env: SecureEnvelope, view: ContractView)
    requires AtRest(w) && env.seq_ == Some(Next(w)) && Next(w) < 0xFFFF_FFFF_FFFF_FFFF
    ensures var o, plain := Arrive(suite, local, sid, s, w, env, view), Opened(suite, local, s, env);
            if plain.Failure? then o == Outcome(Some((s, w)), ReceiveReport([], [], [plain.error], None))
            else if Check(suite.sha256, view, env.contract) == Failure(ContractMismatch) then
              o == Outcome(None, ReceiveReport([], [], [], Some(ContractMismatch)))
            else if |w.held| == 64 then o == Outcome(None, ReceiveReport([], [], [], Some(HoldOverflow)))
            else
              var w' := w.(high := Some(Next(w)), held := w.held[Next(w) := env]);
              Bounded(w') && o == Drain(suite, local, sid, Confirmed(s), w', view)
  {
    hide Opened, Drain, Genuine;
    if |w.held| < HOLD_LIMIT {
      HoldingOneMore(w, Next(w), env);
    }
    OnlyTwoErrors(suite.sha256, view, env.contract);
  }

  lemma OnlyTwoErrors(sha256: string -> string, view: ContractView, claimed: string)
    ensures Check(sha256, view, claimed).Failure? ==> Check(sha256, view, claimed).error in {ContractPending, ContractMismatch}
    ensures Contradicts(sha256, view, claimed) <==> Check(sha256, view, claimed) == Failure(ContractMismatch)
  {
    hide Genuine;
  }

  // ------------------------------------------------------------- what flows on

  /** Everything held opens and no binding of it is ruled out. */
  ghost predicate Sound(suite: Suite, local: string, s: Session, w: Window, view: ContractView) {
    forall n | n in w.held ::
      Opened(suite, local, s, w.held[n]).Success? && Check(suite.sha256, view, w.held[n].contract) != Failure(ContractMismatch)
  }

  /** `t` is `w` with its mark moved to the first number that is not held. */
  ghost predicate MarkMoved(w: Window, t: Window)
    requires Bounded(w) && Bounded(t)
  {
    && t == w.(high := t.high) && Next(w) <= Next(t) && Next(t) !in w.held
    && (forall n: u64 | Next(w) <= n < Next(t) :: n in w.held)
  }

  lemma {:induction false} AuthenticatesAll(suite: Suite, local: string, s: Session, w: Window, view: ContractView)
    requires Ordered(w) && Sound(suite, local, s, w, view)
    ensures var a := Authenticate(suite, local, s, w, view);
            && Bounded(a.window) && a.abort.None? && a.rejected == [] && SameSession(s, a.session) && MarkMoved(w, a.window)
    decreases U64_MAX - Next(w)
  {
    hide Opened, Check;
    var next := Next(w);
    if next in w.held {
      OnlyTwoErrors(suite.sha256, view, w.held[next].contract);
      var w' := w.(high := Some(next));
      SoundConfirmed(suite, local, s, Confirmed(s), w, w', view);
      AuthenticatesAll(suite, local, Confirmed(s), w', view);
    }
  }

  lemma SoundConfirmed(suite: Suite, local: string, s: Session, t: Session, w: Window, w': Window, view: ContractView)
    requires Sound(suite, local, s, w, view) && SameSession(s, t)
    requires forall n | n in w'.held :: n in w.held && w'.held[n] == w.held[n]
    ensures Sound(suite, local, t, w', view)
  {
    hide Opened, Check;
    forall n | n in w'.held ensures Opened(suite, local, t, w'.held[n]) == Opened(suite, local, s, w.held[n]) {
      OpenedByState(suite, local, s, t, w.held[n]);
    }
  }

  lemma {:induction false} DeliversAll(suite: Suite, local: string, sid: string, s: Session, w: Window, view: ContractView)
    requires AtRest(w) && Sound(suite, local, s, w, view)
    ensures Deliver(suite, local, sid, s, w, view).abort.None?
    decreases U64_MAX - w.deliveryNext
  {
    hide Opened, Check;
    RestIsBounded(w);
    if CanDeliver(suite, local, s, w, view) {
      RemovedAtRest(w);
      RestIsBounded(Shifted(w));
      SoundConfirmed(suite, local, s, Confirmed(s), w, Shifted(w), view);
      DeliversAll(suite, local, sid, Confirmed(s), Shifted(w), view);
    } else if Accepted(w, w.deliveryNext) {
      OnlyTwoErrors(suite.sha256, view, w.held[w.deliveryNext].contract);
    }
  }

  /**
   What flows on. When all that is held opens and nothing of it is ruled out, a drain rejects
   nothing and does not abort; the mark goes to the first number that is not held, and of what
   lies below it everything is shown up to the first message whose contract is pending.
   */
  lemma FlowLaw(suite: Suite, local: string, sid: string, s: Session, w: Window, view: ContractView)
    requires Ordered(w) && Sound(suite, local, s, w, view)
    ensures var o := Drain(suite, local, sid, s, w, view);
            && o.rest.Some? && o.report.rejected == [] && o.report.aborted.None? && SameSession(s, o.rest.value.0)
            && var t := o.rest.value.1;
               && AtRest(t) && t.sendSeq == w.sendSeq && t.deliveryNext == w.deliveryNext + |o.report.delivered|
               && Next(w) <= Next(t) && Next(t) !in w.held && (forall n: u64 | Next(w) <= n < Next(t) :: n in w.held)
               && (forall n :: n in t.held <==> n in w.held && n >= t.deliveryNext)
               && (forall n | n in t.held :: t.held[n] == w.held[n])
               && (t.deliveryNext < Next(t) ==>
                     Check(suite.sha256, view, w.held[t.deliveryNext].contract) == Failure(ContractPending))
  {
    hide Opened, Check, Contradicts, Authenticate, Deliver, Contradicted, Sorted, HeldReport, Ordered, HandedOver, WaitsForContract;
    OrderedIsBounded(w);
    var a := Authenticate(suite, local, s, w, view);
    AuthenticatesAll(suite, local, s, w, view);
    AuthenticateOrdered(suite, local, s, w, view);
    SoundConfirmed(suite, local, s, a.session, w, a.window, view);
    DeliversAll(suite, local, sid, a.session, a.window, view);
    DeliverOrdered(suite, local, sid, a.session, a.window, view);
    var d := Deliver(suite, local, sid, a.session, a.window, view);
    HandedOverMeans(a.window, d.window, |d.delivered|);
    NothingRuledOut(suite, local, s, w, d.window, view);
    assert Drain(suite, local, sid, s, w, view).rest == Some((d.session, d.window));
  }

  lemma HandedOverMeans(w: Window, t: Window, count: nat)
    requires Bounded(w) && HandedOver(w, t, count)
    ensures AtRest(t) && Next(t) == Next(w) && t.sendSeq == w.sendSeq && t.deliveryNext == w.deliveryNext + count
    ensures (forall n :: n in t.held <==> n in w.held && n >= t.deliveryNext) && forall n | n in t.held :: t.held[n] == w.held[n]
  {
  }

  lemma NothingRuledOut(suite: Suite, local: string, s: Session, w: Window, t: Window, view: ContractView)
    requires Sound(suite, local, s, w, view) && forall n | n in t.held :: n in w.held && t.held[n] == w.held[n]
    ensures Contradicted(suite, t, view, Sorted(t.held.Keys)).None?
  {
    hide Opened, Check, Contradicts, Contradicted;
    ContradictedMeans(suite, t, view, Sorted(t.held.Keys));
    forall n | n in t.held ensures !Contradicts(suite.sha256, view, t.held[n].contract) {
      OnlyTwoErrors(suite.sha256, view, t.held[n].contract);
    }
  }

  /** A drain ends a session only because of something held that does not open or is ruled out. */
  lemma DrainAbortsOnlyFor(suite: Suite, local: string, sid: string, s: Session, w: Window, view: ContractView)
    requires Ordered(w)
    ensures Bounded(w) && (Drain(suite, local, sid, s, w, view).rest.None? ==> !Sound(suite, local, s, w, view))
  {
    hide Drain, Sound;
    OrderedIsBounded(w);
    if Sound(suite, local, s, w, view) {
      FlowLaw(suite, local, sid, s, w, view);
    }
  }

  /** A message that finds everything held in order, and fits in, opens the way for all that follows it. */
  lemma ArrivalFlows(suite: Suite, local: string, sid: string, s: Session, w: Window, env: SecureEnvelope, view: ContractView)
    requires AtRest(w) && env.seq_ == Some(Next(w)) && Next(w) < 0xFFFF_FFFF_FFFF_FFFF && |w.held| < 64
    requires Sound(suite, local, s, w.(held := w.held[Next(w) := env]), view)
    ensures var o, held := Arrive(suite, local, sid, s, w, env, view), w.held[Next(w) := env];
            && o.rest.Some? && o.report.rejected == [] && o.report.aborted.None? && SameSession(s, o.rest.value.0)
            && var t := o.rest.value.1;
               && AtRest(t) && t.sendSeq == w.sendSeq && t.deliveryNext == w.deliveryNext + |o.report.delivered|
               && Next(w) < Next(t) && Next(t) !in held && (forall n: u64 | Next(w) <= n < Next(t) :: n in held)
               && (forall n :: n in t.held <==> n in held && n >= t.deliveryNext)
               && (forall n | n in t.held :: t.held[n] == held[n])
               && (t.deliveryNext < Next(t) ==> Check(suite.sha256, view, held[t.deliveryNext].contract) == Failure(ContractPending))
  {
    hide Opened, Check, Drain, Arrive, Sound, AtRest;
    RestIsBounded(w);
    var n := Next(w);
    var w' := w.(high := Some(n), held := w.held[n := env]);
    ArrivalSound(suite, local, s, w, env, view);
    NextHeld(w, env);
    TurnLaw(suite, local, sid, s, w, env, view);
    SoundConfirmed(suite, local, s, Confirmed(s), w.(held := w.held[n := env]), w', view);
    FlowLaw(suite, local, sid, Confirmed(s), w', view);
  }

  lemma NextHeld(w: Window, env: SecureEnvelope)
    requires AtRest(w) && env.seq_ == Some(Next(w)) && Next(w) < U64_MAX && |w.held| < HOLD_LIMIT
    ensures Ordered(w.(high := Some(Next(w)), held := w.held[Next(w) := env]))
  {
    HoldingOneMore(w, Next(w), env);
  }

  lemma ArrivalSound(suite: Suite, local: string, s: Session, w: Window, env: SecureEnvelope, view: ContractView)
    requires Bounded(w) && Sound(suite, local, s, w.(held := w.held[Next(w) := env]), view)
    ensures Opened(suite, local, s, env).Success? && Check(suite.sha256, view, env.contract) != Failure(ContractMismatch)
  {
    assert w.held[Next(w) := env][Next(w)] == env;
  }

  // -------------------------------------------------------- many messages

  /** A message has a turn it can take: it is next, or nothing waits, or something beyond it waits. */
  ghost predicate Fits(came: set<u64>, n: u64) {
    || (forall m: u64 | m < n :: m in came)
    || (forall h, m: u64 | h in came && m < h :: m in came)
    || (exists h :: h in came && h > n)
  }

  /** The window when these numbers have come: all up to the first missing one passed and shown, the others held. */
  ghost predicate Spread(w: Window, envs: seq<SecureEnvelope>, came: set<u64>) {
    && AtRest(w) && w.deliveryNext == Next(w) && Next(w) !in came && (forall n: u64 | n < Next(w) :: n in came)
    && (forall n | n in came :: n < |envs|)
    && (forall n :: n in w.held <==> n in came && n > Next(w))
    && (forall n | n in w.held :: w.held[n] == envs[n])
  }

  /** A message of this number that opens and whose binding is accepted. */
  ghost predicate AcceptableOne(suite: Suite, local: string, s: Session, env: SecureEnvelope, view: ContractView, n: nat) {
    n < U64_MAX && env.seq_ == Some(n) && Opened(suite, local, s, env).Success?
    && Check(suite.sha256, view, env.contract).Success?
  }

  /** Messages numbered from zero that open and whose bindings are accepted. */
  ghost predicate Acceptable(suite: Suite, local: string, s: Session, envs: seq<SecureEnvelope>, view: ContractView) {
    forall n | 0 <= n < |envs| :: AcceptableOne(suite, local, s, envs[n], view, n)
  }

  /** A delivery shows the message of this number. */
  ghost predicate ShowsNumber(suite: Suite, local: string, sid: string, s: Session, envs: seq<SecureEnvelope>, n: nat, d: Delivery) {
    n < |envs| && d.sid == sid && d.from == envs[n].from && d.contract == envs[n].contract && d.seq_ == n
    && Opened(suite, local, s, envs[n]) == Success(d.payload)
  }

  /** Deliveries show the messages from this number on, one by one. */
  ghost predicate ShowsFrom(
    suite: Suite, local: string, sid: string, s: Session, envs: seq<SecureEnvelope>, from: nat, shown: seq<Delivery>)
  {
    forall i | 0 <= i < |shown| :: ShowsNumber(suite, local, sid, s, envs, from + i, shown[i])
  }

  lemma SpreadSound(
      suite: Suite, local: string, s: Session, w: Window, envs: seq<SecureEnvelope>, came: set<u64>, n: u64, view: ContractView)
    requires Acceptable(suite, local, s, envs, view) && Spread(w, envs, came) && n < |envs|
    ensures Sound(suite, local, s, w.(held := w.held[n := envs[n]]), view)
  {
    hide Opened, Check, AtRest;
  }

  ghost function Below(n: nat): (r: set<u64>)
    requires n <= 64
    ensures |r| <= n && forall m: u64 :: m in r <==> m < n
  {
    if n == 0 then {} else Below(n - 1) + {n - 1}
  }

  lemma SpreadRests(w: Window, envs: seq<SecureEnvelope>, came: set<u64>)
    requires Spread(w, envs, came)
    ensures AtRest(w) && Bounded(w)
  {
    RestIsBounded(w);
  }

  /** What is held lies within the batch, and the next number is not among it. */
  lemma SpreadWithin(w: Window, envs: seq<SecureEnvelope>, came: set<u64>, n: u64)
    requires Spread(w, envs, came) && n in w.held
    ensures Next(w) < n < |envs|
  {
    hide AtRest;
    RestIsBounded(w);
  }

  /** With at most 64 numbers to come in all, there is room. */
  lemma SpreadHasRoom(w: Window, envs: seq<SecureEnvelope>, came: set<u64>)
    requires Spread(w, envs, came) && |envs| <= 64
    ensures |w.held| < 64
  {
    hide Spread, Bounded;
    SpreadRests(w, envs, came);
    var all, next := Below(|envs|), Next(w);
    forall n | n in w.held ensures n in all && n != next && next in all {
      SpreadWithin(w, envs, came, n);
    }
    assert |w.held| == |w.held.Keys|;
    if w.held.Keys != {} {
      SubsetCount(w.held.Keys, all - {next});
    }
  }

  lemma FitsEarly(w: Window, envs: seq<SecureEnvelope>, came: set<u64>, n: u64)
    requires Spread(w, envs, came) && n !in came && Fits(came, n) && n != Next(w)
    ensures n > Next(w) && n !in w.held
    ensures (forall m | m in w.held :: m < Next(w)) || (exists m :: m in w.held && m > n)
  {
    hide AtRest;
    RestIsBounded(w);
    if h :| h in came && h > n {
      assert h in w.held;
    }
  }

  lemma Compatible(suite: Suite, local: string, s: Session, envs: seq<SecureEnvelope>, view: ContractView, n: nat)
    requires Acceptable(suite, local, s, envs, view) && n < |envs|
    ensures n < U64_MAX && envs[n].seq_ == Some(n) && Opened(suite, local, s, envs[n]).Success?
    ensures Check(suite.sha256, view, envs[n].contract).Success?
  {
    hide Opened, Check;
    assert AcceptableOne(suite, local, s, envs[n], view, n);
  }

  /** The message that is next takes all that follows it along. */
  lemma NextShown(
      suite: Suite, local: string, sid: string, s: Session, w: Window, envs: seq<SecureEnvelope>, came: set<u64>, view: ContractView)
    requires Acceptable(suite, local, s, envs, view) && Spread(w, envs, came) && |envs| <= 64
    requires AtRest(w) && Next(w) < |envs|
    ensures var o := Arrive(suite, local, sid, s, w, envs[Next(w)], view);
            && o.rest.Some? && o.report.rejected == [] && o.report.aborted.None? && SameSession(s, o.rest.value.0)
            && Spread(o.rest.value.1, envs, came + {Next(w)}) && Next(o.rest.value.1) == Next(w) + |o.report.delivered|
            && ShowsFrom(suite, local, sid, s, envs, Next(w), o.report.delivered)
  {
    hide Opened, Check, Arrive, AtRest, Sound, Acceptable;
    RestIsBounded(w);
    var n := Next(w);
    var env := envs[n];
    Compatible(suite, local, s, envs, view, n);
    SpreadHasRoom(w, envs, came);
    SpreadSound(suite, local, s, w, envs, came, n, view);
    ArrivalFlows(suite, local, sid, s, w, env, view);
    var o := Arrive(suite, local, sid, s, w, env, view);
    var t := o.rest.value.1;
    AllAccepted(suite, local, s, w, t, envs, came, view);
    SpreadOn(w, t, envs, came, n);
    ShownIsBatch(suite, local, sid, s, w, envs, came, view);
  }

  /** What it shows are the messages of the batch from the next one on. */
  lemma ShownIsBatch(
      suite: Suite, local: string, sid: string, s: Session, w: Window, envs: seq<SecureEnvelope>, came: set<u64>, view: ContractView)
    requires Acceptable(suite, local, s, envs, view) && Spread(w, envs, came) && AtRest(w) && Next(w) < |envs|
    requires w.deliveryNext == Next(w) && envs[Next(w)].seq_ == Some(Next(w))
    ensures ShowsFrom(suite, local, sid, s, envs, Next(w), Arrive(suite, local, sid, s, w, envs[Next(w)], view).report.delivered)
  {
    hide Opened, Check, Arrive, AtRest, Spread, Acceptable;
    RestIsBounded(w);
    var n := Next(w);
    var shown := Arrive(suite, local, sid, s, w, envs[n], view).report.delivered;
    forall i | 0 <= i < |shown| ensures ShowsNumber(suite, local, sid, s, envs, n + i, shown[i]) {
      ArriveContents(suite, local, sid, s, w, envs[n], view, i);
      HeldIsBatch(w, envs, came, n, n + i);
    }
  }

  lemma HeldIsBatch(w: Window, envs: seq<SecureEnvelope>, came: set<u64>, n: u64, m: nat)
    requires Spread(w, envs, came) && n < |envs| && m <= U64_MAX && m in w.held[n := envs[n]]
    ensures m < |envs| && w.held[n := envs[n]][m] == envs[m]
  {
  }

  lemma AllAccepted(
      suite: Suite, local: string, s: Session, w: Window, t: Window, envs: seq<SecureEnvelope>, came: set<u64>, view: ContractView)
    requires Acceptable(suite, local, s, envs, view) && Spread(w, envs, came) && AtRest(t) && Bounded(w) && Next(w) < |envs|
    requires var held := w.held[Next(w) := envs[Next(w)]];
             t.deliveryNext < Next(t) ==>
               t.deliveryNext in held && Check(suite.sha256, view, held[t.deliveryNext].contract) == Failure(ContractPending)
    ensures t.deliveryNext == Next(t)
  {
    hide Check, Acceptable, Spread;
    RestIsBounded(t);
    if t.deliveryNext < Next(t) {
      HeldIsBatch(w, envs, came, Next(w), t.deliveryNext);
      Compatible(suite, local, s, envs, view, t.deliveryNext);
    }
    AtRestOrder(t);
  }

  lemma AtRestOrder(t: Window)
    requires AtRest(t)
    ensures t.deliveryNext <= Next(t)
  {
  }

  /** One more message that fits is held, or shown together with all that follows it. */
  lemma OneMoreFits(
      suite: Suite, local: string, sid: string, s: Session, w: Window, envs: seq<SecureEnvelope>, came: set<u64>, n: u64, view: ContractView)
    requires Acceptable(suite, local, s, envs, view) && Spread(w, envs, came) && |envs| <= 64
    requires AtRest(w) && n !in came && n < |envs| && Fits(came, n)
    ensures var o := Arrive(suite, local, sid, s, w, envs[n], view);
            && o.rest.Some? && o.report.rejected == [] && o.report.aborted.None? && SameSession(s, o.rest.value.0)
            && Spread(o.rest.value.1, envs, came + {n}) && Next(o.rest.value.1) == Next(w) + |o.report.delivered|
            && ShowsFrom(suite, local, sid, s, envs, Next(w), o.report.delivered)
  {
    hide Opened, Check, Arrive, AtRest, Sound, Acceptable, Spread, Fits;
    SpreadRests(w, envs, came);
    if n == Next(w) {
      NextShown(suite, local, sid, s, w, envs, came, view);
    } else {
      Compatible(suite, local, s, envs, view, n);
      SpreadHasRoom(w, envs, came);
      FitsEarly(w, envs, came, n);
      EarlyLaw(suite, local, sid, s, w, envs[n], view, n);
      SpreadHolding(w, envs, came, n);
    }
  }

  lemma SpreadHolding(w: Window, envs: seq<SecureEnvelope>, came: set<u64>, n: u64)
    requires Spread(w, envs, came) && n < |envs| && n < U64_MAX && envs[n].seq_ == Some(n) && |w.held| < 64
    requires n > Next(w) && n !in w.held
    ensures var t := w.(held := w.held[n := envs[n]]); Spread(t, envs, came + {n}) && Next(t) == Next(w)
  {
    hide AtRest;
    RestIsBounded(w);
    HoldingOneMore(w, n, envs[n]);
    var t := w.(held := w.held[n := envs[n]]);
    RestIsBounded(t);
    assert Next(t) == Next(w);
    assert forall m: u64 | m < Next(t) :: m in came + {n};
    assert forall m | m in came + {n} :: m < |envs|;
    assert forall m | m in t.held :: t.held[m] == envs[m];
    assert forall m :: m in t.held <==> m in came + {n} && m > Next(t);
  }

  lemma SpreadOn(w: Window, t: Window, envs: seq<SecureEnvelope>, came: set<u64>, n: u64)
    requires Spread(w, envs, came) && n == Next(w) && n < |envs| && AtRest(t) && t.deliveryNext == Next(t)
    requires var held := w.held[n := envs[n]];
             n < Next(t) && Next(t) !in held && (forall m: u64 | n <= m < Next(t) :: m in held)
             && (forall m :: m in t.held <==> m in held && m >= t.deliveryNext) && forall m | m in t.held :: t.held[m] == held[m]
    ensures Spread(t, envs, came + {n})
  {
    hide AtRest;
    RestIsBounded(w);
    RestIsBounded(t);
    var held := w.held[n := envs[n]];
    assert forall m :: m in held <==> m in came + {n} && m >= n;
    assert forall m | m in held :: held[m] == envs[m];
    assert forall m: u64 | m < Next(t) :: m in came + {n};
    assert forall m | m in came + {n} :: m < |envs|;
    assert forall m | m in t.held :: t.held[m] == envs[m];
    assert forall m :: m in t.held <==> m in came + {n} && m > Next(t);
  }

  /** What a run of arrivals shows, when none of them ends the session. */
  ghost function Arrivals(
    suite: Suite, local: string, sid: string, s: Session, w: Window, envs: seq<SecureEnvelope>, view: ContractView, numbers: seq<u64>)
    : Option<(Session, Window, seq<Delivery>)>
    requires AtRest(w) && forall n | n in numbers :: n < |envs| && envs[n].seq_.Some?
    decreases numbers
  {
    if numbers == [] then Some((s, w, []))
    else
      assert numbers[0] in numbers;
      var o := Arrive(suite, local, sid, s, w, envs[numbers[0]], view);
      ArriveRests(suite, local, sid, s, w, envs[numbers[0]], view);
      if o.rest.None? then None
      else
        match Arrivals(suite, local, sid, o.rest.value.0, o.rest.value.1, envs, view, numbers[1..])
        case None => None
        case Some(r) => Some((r.0, r.1, o.report.delivered + r.2))
  }

  /** The first arrival, and the others after it. */
  lemma ArrivalsStep(
      suite: Suite, local: string, sid: string, s: Session, w: Window, envs: seq<SecureEnvelope>, view: ContractView, numbers: seq<u64>)
    requires AtRest(w) && numbers != [] && forall n | n in numbers :: n < |envs| && envs[n].seq_.Some?
    ensures Bounded(w) && numbers[0] < |envs| && envs[numbers[0]].seq_.Some?
    ensures var o := Arrive(suite, local, sid, s, w, envs[numbers[0]], view);
            o.rest.Some? ==>
              AtRest(o.rest.value.1)
              && var later := Arrivals(suite, local, sid, o.rest.value.0, o.rest.value.1, envs, view, numbers[1..]);
                 later.Some? ==>
                   Arrivals(suite, local, sid, s, w, envs, view, numbers)
                   == Some((later.value.0, later.value.1, o.report.delivered + later.value.2))
  {
    hide Arrive, AtRest;
    assert numbers[0] in numbers;
    RestIsBounded(w);
    ArriveRests(suite, local, sid, s, w, envs[numbers[0]], view);
  }

  function Elements(numbers: seq<u64>): set<u64> {
    set n | n in numbers
  }

  /** Each number is new and finds its place when it comes. */
  ghost predicate FitInTurn(came: set<u64>, numbers: seq<u64>)
    decreases numbers
  {
    numbers == [] || (numbers[0] !in came && Fits(came, numbers[0]) && FitInTurn(came + {numbers[0]}, numbers[1..]))
  }

  lemma FirstInTurn(came: set<u64>, numbers: seq<u64>, k: nat)
    requires numbers != [] && FitInTurn(came, numbers) && forall n | n in numbers :: n < k
    ensures numbers[0] < k && numbers[0] !in came && Fits(came, numbers[0]) && FitInTurn(came + {numbers[0]}, numbers[1..])
    ensures forall n | n in numbers[1..] :: n in numbers
    ensures came + {numbers[0]} + Elements(numbers[1..]) == came + Elements(numbers)
  {
    hide Fits;
    assert numbers[0] in numbers;
    assert forall n :: n in numbers <==> n == numbers[0] || n in numbers[1..];
  }

  /** From this number on the messages were shown one by one, and the window is as it has to be. */
  ghost predicate CameThrough(
    suite: Suite, local: string, sid: string, s: Session, envs: seq<SecureEnvelope>, from: nat, came: set<u64>,
    r: Option<(Session, Window, seq<Delivery>)>)
  {
    r.Some?
    && var t := r.value.1;
       Spread(t, envs, came) && Bounded(t) && Next(t) == from + |r.value.2| && ShowsFrom(suite, local, sid, s, envs, from, r.value.2)
  }

  lemma NothingCame(suite: Suite, local: string, sid: string, s: Session, w: Window, envs: seq<SecureEnvelope>, came: set<u64>, s': Session)
    requires Spread(w, envs, came)
    ensures Bounded(w) && CameThrough(suite, local, sid, s, envs, Next(w), came, Some((s', w, [])))
  {
    hide Opened, Spread;
    SpreadRests(w, envs, came);
  }

  lemma OneMoreCame(
      suite: Suite, local: string, sid: string, s0: Session, s: Session, envs: seq<SecureEnvelope>, from: nat, came: set<u64>,
      shown: seq<Delivery>, later: Option<(Session, Window, seq<Delivery>)>)
    requires forall n | 0 <= n < |envs| :: Opened(suite, local, s, envs[n]) == Opened(suite, local, s0, envs[n])
    requires ShowsFrom(suite, local, sid, s, envs, from, shown)
    requires CameThrough(suite, local, sid, s0, envs, from + |shown|, came, later)
    ensures CameThrough(suite, local, sid, s0, envs, from, came, Some((later.value.0, later.value.1, shown + later.value.2)))
  {
    hide Opened, Spread, ShowsFrom, Bounded;
    ShowsMore(suite, local, sid, s0, s, envs, from, shown, later.value.2);
  }

  /** The first of the arrivals: what it shows, and the session and window it leaves. */
  lemma FirstComes(
      suite: Suite, local: string, sid: string, s0: Session, s: Session, w: Window, envs: seq<SecureEnvelope>, view: ContractView,
      came: set<u64>, numbers: seq<u64>) returns (s1: Session, w1: Window, shown: seq<Delivery>)
    requires Acceptable(suite, local, s0, envs, view) && SameSession(s0, s) && |envs| <= 64
    requires AtRest(w) && Spread(w, envs, came) && FitInTurn(came, numbers) && numbers != []
    requires forall n | n in numbers :: n < |envs| && envs[n].seq_.Some?
    ensures SameSession(s0, s1) && AtRest(w1) && Spread(w1, envs, came + {numbers[0]}) && Bounded(w) && Bounded(w1)
    ensures Next(w1) == Next(w) + |shown| && ShowsFrom(suite, local, sid, s, envs, Next(w), shown)
    ensures var later := Arrivals(suite, local, sid, s1, w1, envs, view, numbers[1..]);
            later.Some? ==>
              Arrivals(suite, local, sid, s, w, envs, view, numbers) == Some((later.value.0, later.value.1, shown + later.value.2))
  {
    hide Opened, Check, Arrive, Spread, Fits, AtRest, Acceptable, Bounded, SameSession, ShowsFrom, Arrivals, FitInTurn, Elements;
    SpreadRests(w, envs, came);
    AcceptableStill(suite, local, s0, s, envs, view);
    var n := numbers[0];
    FirstInTurn(came, numbers, |envs|);
    ArrivalsStep(suite, local, sid, s, w, envs, view, numbers);
    OneMoreFits(suite, local, sid, s, w, envs, came, n, view);
    var o := Arrive(suite, local, sid, s, w, envs[n], view);
    s1, w1, shown := o.rest.value.0, o.rest.value.1, o.report.delivered;
    SpreadRests(w1, envs, came + {n});
    SameTwice(s0, s, s1);
  }

  lemma {:induction false} FittingShown(
      suite: Suite, local: string, sid: string, s0: Session, s: Session, w: Window, envs: seq<SecureEnvelope>, view: ContractView,
      came: set<u64>, numbers: seq<u64>)
    requires Acceptable(suite, local, s0, envs, view) && SameSession(s0, s) && |envs| <= 64
    requires AtRest(w) && Spread(w, envs, came) && FitInTurn(came, numbers)
    requires forall n | n in numbers :: n < |envs| && envs[n].seq_.Some?
    ensures Bounded(w)
    ensures CameThrough(suite, local, sid, s0, envs, Next(w), came + Elements(numbers), Arrivals(suite, local, sid, s, w, envs, view, numbers))
    decreases numbers
  {
    hide Opened, Check, Spread, Fits, AtRest, Acceptable, Bounded, SameSession, ShowsFrom, CameThrough;
    if numbers == [] {
      assert came + Elements(numbers) == came;
      NothingCame(suite, local, sid, s0, w, envs, came, s);
    } else {
      hide Arrivals, FitInTurn, Elements, Next;
      FirstInTurn(came, numbers, |envs|);
      var s1, w1, shown := FirstComes(suite, local, sid, s0, s, w, envs, view, came, numbers);
      FittingShown(suite, local, sid, s0, s1, w1, envs, view, came + {numbers[0]}, numbers[1..]);
      var later := Arrivals(suite, local, sid, s1, w1, envs, view, numbers[1..]);
      AcceptableStill(suite, local, s0, s, envs, view);
      SomethingCame(suite, local, sid, s0, envs, Next(w1), came + Elements(numbers), later);
      OneMoreCame(suite, local, sid, s0, s, envs, Next(w), came + Elements(numbers), shown, later);
    }
  }

  lemma SomethingCame(
      suite: Suite, local: string, sid: string, s: Session, envs: seq<SecureEnvelope>, from: nat, came: set<u64>,
      r: Option<(Session, Window, seq<Delivery>)>)
    requires CameThrough(suite, local, sid, s, envs, from, came, r)
    ensures r.Some?
  {
  }

  lemma SameTwice(s: Session, t: Session, u: Session)
    requires SameSession(s, t) && SameSession(t, u)
    ensures SameSession(s, u)
  {
  }

  lemma ShowsMore(
      suite: Suite, local: string, sid: string, s0: Session, s: Session, envs: seq<SecureEnvelope>, from: nat,
      shown: seq<Delivery>, more: seq<Delivery>)
    requires forall n | 0 <= n < |envs| :: Opened(suite, local, s, envs[n]) == Opened(suite, local, s0, envs[n])
    requires ShowsFrom(suite, local, sid, s, envs, from, shown) && ShowsFrom(suite, local, sid, s0, envs, from + |shown|, more)
    ensures ShowsFrom(suite, local, sid, s0, envs, from, shown + more)
  {
    hide Opened;
    forall i | 0 <= i < |shown + more| ensures ShowsNumber(suite, local, sid, s0, envs, from + i, (shown + more)[i]) {
      if i < |shown| {
        assert ShowsNumber(suite, local, sid, s, envs, from + i, shown[i]);
      } else {
        assert ShowsNumber(suite, local, sid, s0, envs, from + |shown| + (i - |shown|), more[i - |shown|]);
      }
    }
  }

  lemma AcceptableStill(suite: Suite, local: string, s0: Session, s: Session, envs: seq<SecureEnvelope>, view: ContractView)
    requires Acceptable(suite, local, s0, envs, view) && SameSession(s0, s)
    ensures Acceptable(suite, local, s, envs, view)
    ensures forall n | 0 <= n < |envs| :: Opened(suite, local, s, envs[n]) == Opened(suite, local, s0, envs[n])
  {
    hide Opened, Check, SameSession;
    forall n | 0 <= n < |envs|
      ensures Opened(suite, local, s, envs[n]) == Opened(suite, local, s0, envs[n]) && AcceptableOne(suite, local, s, envs[n], view, n)
    {
      OpenedByState(suite, local, s0, s, envs[n]);
    }
  }

  lemma FreshSpread(envs: seq<SecureEnvelope>)
    ensures AtRest(FRESH) && Spread(FRESH, envs, {}) && Bounded(FRESH) && Next(FRESH) == 0
  {
    FreshAtRest();
  }

  lemma AllCame(t: Window, envs: seq<SecureEnvelope>, came: set<u64>)
    requires Spread(t, envs, came) && Bounded(t) && forall n: u64 :: n in came <==> n < |envs|
    ensures t.held == map[] && |envs| <= Next(t)
  {
    hide AtRest;
    if Next(t) < |envs| {
      assert false;
    }
    assert t.held.Keys == {};
  }

  /**
   Nothing stays behind. Up to 64 messages whose bindings are accepted, arriving at a fresh
   window in any order in which each finds its place, are all shown, in order and once each.
   */
  lemma AllComeThrough(
      suite: Suite, local: string, sid: string, s: Session, envs: seq<SecureEnvelope>, view: ContractView, numbers: seq<u64>)
    requires Acceptable(suite, local, s, envs, view) && |envs| <= 64
    requires (forall n: u64 :: n in numbers <==> n < |envs|) && FitInTurn({}, numbers)
    ensures AtRest(FRESH)
    ensures var r := Arrivals(suite, local, sid, s, FRESH, envs, view, numbers);
            r.Some? && r.value.1.held == map[] && |r.value.2| == |envs|
            && ShowsFrom(suite, local, sid, s, envs, 0, r.value.2)
  {
    hide Opened, Check, Arrivals, FitInTurn, Spread, AtRest, Bounded;
    FreshSpread(envs);
    FittingShown(suite, local, sid, s, s, FRESH, envs, view, {}, numbers);
    var r := Arrivals(suite, local, sid, s, FRESH, envs, view, numbers).value;
    AllCame(r.1, envs, {} + Elements(numbers));
    assert |r.2| > 0 ==> ShowsNumber(suite, local, sid, s, envs, 0 + (|r.2| - 1), r.2[|r.2| - 1]);
  }

  /** The second message before the first: it waits, and then both are shown. */
  lemma SwappedPairShown(suite: Suite, local: string, sid: string, s: Session, envs: seq<SecureEnvelope>, view: ContractView)
    requires Acceptable(suite, local, s, envs, view) && |envs| == 2
    ensures AtRest(FRESH)
    ensures var r := Arrivals(suite, local, sid, s, FRESH, envs, view, [1, 0]);
            r.Some? && |r.value.2| == 2 && ShowsNumber(suite, local, sid, s, envs, 0, r.value.2[0])
            && ShowsNumber(suite, local, sid, s, envs, 1, r.value.2[1])
  {
    hide Opened, Check, Arrivals, Acceptable, AtRest;
    var numbers: seq<u64> := [1, 0];
    assert numbers[1..] == [0] && [0][1..] == [];
    assert Fits({}, 1) && Fits({} + {1}, 0);
    assert FitInTurn({} + {1}, [0]);
    assert forall n: u64 :: n in numbers <==> n < 2;
    AllComeThrough(suite, local, sid, s, envs, view, numbers);
  }
}
