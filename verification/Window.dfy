/**
 One session's receive window as a value: what arriving and observed messages do to
 it, and what holds of it at rest (`src/secure/transport.rs`).
 */
module Windows {
  import opened Wrappers
  import opened Text
  import opened Secure
  import opened Crypto
  import opened Envelope
  import opened Sessions
  import opened Binding

  const HOLD_LIMIT := 64

  datatype Window = Window(sendSeq: u64, high: Option<u64>, deliveryNext: u64, held: map<u64, SecureEnvelope>)

  const FRESH := Window(0, None, 0, map[])

  datatype Delivery = Delivery(sid: string, from: string, contract: string, seq_: u64, payload: Bytes)

  datatype Held = Held(sid: string, seq_: u64, reason: string)

  datatype ReceiveReport = ReceiveReport(
    delivered: seq<Delivery>, held: seq<Held>, rejected: seq<SecureError>, aborted: Option<SecureError>)

  const EMPTY := ReceiveReport([], [], [], None)

  function Rejection(e: SecureError): ReceiveReport {
    EMPTY.(rejected := [e])
  }

  /** An abort shows neither deliveries nor holds; what was rejected before stays. */
  function Aborted(e: SecureError, rejected: seq<SecureError>): ReceiveReport {
    ReceiveReport([], [], rejected, Some(e))
  }

  // ------------------------------------------------------------- arithmetic

  /** No accepted or held number is the last one, so `next` never overflows. */
  predicate Bounded(w: Window) {
    && (w.high.Some? ==> w.high.value < U64_MAX)
    && forall n | n in w.held :: n < U64_MAX && w.held[n].seq_ == Some(n)
  }

  function Next(w: Window): u64
    requires Bounded(w)
  {
    if w.high.Some? then w.high.value + 1 else 0
  }

  predicate Accepted(w: Window, n: u64) {
    w.high.Some? && n <= w.high.value
  }

  // ------------------------------------------------------------------ drain

  datatype Authenticated = Authenticated(session: Session, window: Window, rejected: seq<SecureError>, abort: Option<SecureError>)

  /** Moves the mark over every held envelope that continues it and still opens. */
  function Authenticate(suite: Suite, local: string, s: Session, w: Window, view: ContractView): Authenticated
    requires Bounded(w)
    decreases U64_MAX - Next(w)
  {
    var next := Next(w);
    if next !in w.held then Authenticated(s, w, [], None)
    else
      var env := w.held[next];
      match Opened(suite, local, s, env)
      case Failure(e) => Authenticated(s, w.(held := w.held - {next}), [e], None)
      case Success(_) =>
        var w' := w.(high := Some(next));
        if Contradicts(suite.sha256, view, env.contract)
        then Authenticated(Confirmed(s), w', [], Some(Check(suite.sha256, view, env.contract).error))
        else Authenticate(suite, local, Confirmed(s), w', view)
  }

  datatype Delivering = Delivering(session: Session, window: Window, delivered: seq<Delivery>, abort: Option<SecureError>)

  /** Hands over accepted envelopes in order until one is missing or has to wait. */
  function Deliver(suite: Suite, local: string, sid: string, s: Session, w: Window, view: ContractView): Delivering
    requires Bounded(w)
    decreases U64_MAX - w.deliveryNext
  {
    var next := w.deliveryNext;
    if !Accepted(w, next) || next !in w.held then Delivering(s, w, [], None)
    else
      var env := w.held[next];
      match Check(suite.sha256, view, env.contract)
      case Failure(e) => Delivering(s, w, [], if e == ContractPending then None else Some(e))
      case Success(_) =>
        match Opened(suite, local, s, env)
        case Failure(e) => Delivering(s, w, [], Some(e))
        case Success(payload) =>
          var w' := w.(held := w.held - {next}, deliveryNext := next + 1);
          var rest := Deliver(suite, local, sid, Confirmed(s), w', view);
          rest.(delivered := [Delivery(sid, env.from, env.contract, next, payload)] + rest.delivered)
  }

  /** Ascending order of a set of numbers. */
  function Sorted(ns: set<u64>): (r: seq<u64>)
    ensures |r| == |ns| && forall n :: n in r <==> n in ns
    ensures forall i, j | 0 <= i < j < |r| :: r[i] < r[j]
  {
    if ns == {} then []
    else
      var m := Least(ns);
      [m] + Sorted(ns - {m})
  }

  function Least(ns: set<u64>): (m: u64)
    requires ns != {}
    ensures m in ns && forall n | n in ns :: m <= n
  {
    LeastExists(ns);
    var m :| m in ns && forall n | n in ns :: m <= n;
    m
  }

  lemma {:induction false} LeastOf(ns: set<u64>) returns (m: u64)
    requires ns != {}
    ensures m in ns && forall n | n in ns :: m <= n
  {
    m :| m in ns;
    var rest := ns - {m};
    if rest != {} {
      var least := LeastOf(rest);
      forall n | n in ns ensures n == m || n >= least {
        assert n != m ==> n in rest;
      }
      m := if m <= least then m else least;
    } else {
      forall n | n in ns ensures n == m {
        assert n != m ==> n in rest;
      }
    }
  }

  lemma LeastExists(ns: set<u64>)
    requires ns != {}
    ensures exists m :: m in ns && forall n | n in ns :: m <= n
  {
    var m := LeastOf(ns);
  }

  function HeldEntry(sid: string, w: Window, n: u64): Held {
    Held(sid, n, if Accepted(w, n) then "ContractPending" else "SequencePending")
  }

  function HeldReport(sid: string, w: Window, ns: seq<u64>): (r: seq<Held>)
    ensures |r| == |ns| && forall i | 0 <= i < |ns| :: r[i] == HeldEntry(sid, w, ns[i])
  {
    if ns == [] then [] else [HeldEntry(sid, w, ns[0])] + HeldReport(sid, w, ns[1..])
  }

  /** An accepted held envelope whose binding the view rules out, the lowest one first. */
  function Contradicted(suite: Suite, w: Window, view: ContractView, ns: seq<u64>): Option<SecureError>
    requires forall n | n in ns :: n in w.held
  {
    if ns == [] then None
    else if Accepted(w, ns[0]) && Contradicts(suite.sha256, view, w.held[ns[0]].contract)
    then Some(Check(suite.sha256, view, w.held[ns[0]].contract).error)
    else Contradicted(suite, w, view, ns[1..])
  }

  /** The session with its window, both gone after an abort, and the report. */
  datatype Outcome = Outcome(rest: Option<(Session, Window)>, report: ReceiveReport)

  function Drain(suite: Suite, local: string, sid: string, s: Session, w: Window, view: ContractView): Outcome
    requires Bounded(w)
  {
    var a := Authenticate(suite, local, s, w, view);
    if a.abort.Some? then Outcome(None, Aborted(a.abort.value, a.rejected))
    else
      AuthenticateBounded(suite, local, s, w, view);
      var d := Deliver(suite, local, sid, a.session, a.window, view);
      if d.abort.Some? then Outcome(None, Aborted(d.abort.value, a.rejected))
      else
        var ns := Sorted(d.window.held.Keys);
        match Contradicted(suite, d.window, view, ns)
        case Some(e) => Outcome(None, Aborted(e, a.rejected))
        case None =>
          Outcome(Some((d.session, d.window)),
                  ReceiveReport(d.delivered, HeldReport(sid, d.window, ns), a.rejected, None))
  }

  lemma {:induction false} AuthenticateBounded(suite: Suite, local: string, s: Session, w: Window, view: ContractView)
    requires Bounded(w)
    ensures Bounded(Authenticate(suite, local, s, w, view).window)
    decreases U64_MAX - Next(w)
  {
    var next := Next(w);
    if next in w.held && Opened(suite, local, s, w.held[next]).Success?
       && !Contradicts(suite.sha256, view, w.held[next].contract) {
      AuthenticateBounded(suite, local, Confirmed(s), w.(high := Some(next)), view);
    }
  }

  // ---------------------------------------------------------------- receive

  /** Numbers held beyond a hole. */
  function Gaps(w: Window): set<u64>
    requires Bounded(w)
  {
    set n | n in w.held && n >= Next(w)
  }

  /** A verified message meets the window of its session. */
  function Arrive(suite: Suite, local: string, sid: string, s: Session, w: Window, env: SecureEnvelope, view: ContractView)
    : Outcome
    requires Bounded(w) && env.seq_.Some?
  {
    var n := env.seq_.value;
    if Accepted(w, n) || n in w.held then Outcome(Some((s, w)), Rejection(ReplayRejected))
    else if n == U64_MAX then Outcome(None, Aborted(SessionExhausted, []))
    else if n > Next(w) then
      if |w.held| >= HOLD_LIMIT then Outcome(None, Aborted(HoldOverflow, []))
      else if Gaps(w) != {} && forall g | g in Gaps(w) :: n > g then Outcome(None, Aborted(SequenceGap, []))
      else Outcome(Some((s, w.(held := w.held[n := env]))), EMPTY.(held := [Held(sid, n, "SequencePending")]))
    else
      match Opened(suite, local, s, env)
      case Failure(e) => Outcome(Some((s, w)), Rejection(e))
      case Success(_) =>
        if Contradicts(suite.sha256, view, env.contract)
        then Outcome(None, Aborted(Check(suite.sha256, view, env.contract).error, []))
        else if |w.held| >= HOLD_LIMIT then Outcome(None, Aborted(HoldOverflow, []))
        else Drain(suite, local, sid, Confirmed(s), w.(high := Some(n), held := w.held[n := env]), view)
  }

  // ---------------------------------------------------------------- at rest

  /** What holds between operations, but for the number to come being held. */
  ghost predicate Ordered(w: Window) {
    && Bounded(w)
    && w.deliveryNext <= Next(w)
    && (forall n: u64 | w.deliveryNext <= n < Next(w) :: n in w.held)
    && (forall n | n in w.held :: w.deliveryNext <= n)
    && |w.held| <= HOLD_LIMIT
  }

  /** The window between operations. */
  ghost predicate AtRest(w: Window) {
    Ordered(w) && Next(w) !in w.held
  }

  lemma FreshAtRest()
    ensures AtRest(FRESH)
  {
  }

  /** Only the waiting state of a session changes while messages are opened. */
  ghost predicate SameSession(s: Session, t: Session) {
    t == s || t == Confirmed(s)
  }

  lemma OpenedByState(suite: Suite, local: string, s: Session, t: Session, env: SecureEnvelope)
    requires SameSession(s, t)
    ensures Opened(suite, local, t, env) == Opened(suite, local, s, env)
  {
    assert Verify(suite, local, t, env) == Verify(suite, local, s, env);
    assert OpenVerified(suite, t, env) == OpenVerified(suite, s, env);
  }

  lemma {:induction false} AuthenticateOrdered(suite: Suite, local: string, s: Session, w: Window, view: ContractView)
    requires Ordered(w)
    ensures var a := Authenticate(suite, local, s, w, view);
            && Ordered(a.window) && (a.abort.None? ==> AtRest(a.window))
            && a.window.deliveryNext == w.deliveryNext && a.window.sendSeq == w.sendSeq && SameSession(s, a.session)
            && Next(w) <= Next(a.window)
            && forall n | n in a.window.held :: n in w.held && a.window.held[n] == w.held[n]
    decreases U64_MAX - Next(w)
  {
    hide Opened, Contradicts, Check;
    var next := Next(w);
    if next in w.held && Opened(suite, local, s, w.held[next]).Success?
       && !Contradicts(suite.sha256, view, w.held[next].contract) {
      AuthenticateOrdered(suite, local, Confirmed(s), w.(high := Some(next)), view);
    }
  }

  /** `t` is `w` after its first `count` undelivered envelopes have been handed over. */
  ghost predicate HandedOver(w: Window, t: Window, count: nat)
    requires Bounded(w)
  {
    && AtRest(t) && t.high == w.high && t.sendSeq == w.sendSeq && t.deliveryNext == w.deliveryNext + count
    && (forall n :: n in t.held <==> n in w.held && n >= t.deliveryNext)
    && (forall n | n in t.held :: t.held[n] == w.held[n])
  }

  predicate CanDeliver(suite: Suite, local: string, s: Session, w: Window, view: ContractView) {
    var next := w.deliveryNext;
    Accepted(w, next) && next in w.held && Check(suite.sha256, view, w.held[next].contract).Success?
    && Opened(suite, local, s, w.held[next]).Success?
  }

  function Shifted(w: Window): Window
    requires w.deliveryNext < U64_MAX
  {
    w.(held := w.held - {w.deliveryNext}, deliveryNext := w.deliveryNext + 1)
  }

  /** One step of delivery. */
  lemma DeliverStep(suite: Suite, local: string, sid: string, s: Session, w: Window, view: ContractView)
    requires Bounded(w)
    ensures var d := Deliver(suite, local, sid, s, w, view);
            if CanDeliver(suite, local, s, w, view) then
              var next := w.deliveryNext;
              var rest := Deliver(suite, local, sid, Confirmed(s), Shifted(w), view);
              var env := w.held[next];
              d.session == rest.session && d.window == rest.window && d.abort == rest.abort
              && |d.delivered| == 1 + |rest.delivered| && d.delivered[1..] == rest.delivered
              && d.delivered[0] == Delivery(sid, env.from, env.contract, next, Opened(suite, local, s, env).value)
            else
              d.session == s && d.window == w && d.delivered == []
              && (d.abort.None? && Accepted(w, w.deliveryNext) && w.deliveryNext in w.held ==>
                    Check(suite.sha256, view, w.held[w.deliveryNext].contract) == Failure(ContractPending))
  {
    hide Opened, Check;
  }

  /** Delivery hands over in order and stops only at an envelope that has to wait. */
  lemma {:induction false} DeliverOrdered(suite: Suite, local: string, sid: string, s: Session, w: Window, view: ContractView)
    requires AtRest(w)
    ensures var d := Deliver(suite, local, sid, s, w, view);
            HandedOver(w, d.window, |d.delivered|) && SameSession(s, d.session)
    ensures var d := Deliver(suite, local, sid, s, w, view);
            d.abort.None? && d.window.deliveryNext < Next(w) ==>
              Check(suite.sha256, view, w.held[d.window.deliveryNext].contract) == Failure(ContractPending)
    decreases U64_MAX - w.deliveryNext
  {
    hide Opened, Check, Deliver, HandedOver, AtRest, Shifted;
    RestIsBounded(w);
    DeliverStep(suite, local, sid, s, w, view);
    if CanDeliver(suite, local, s, w, view) {
      RemovedAtRest(w);
      RestIsBounded(Shifted(w));
      DeliverOrdered(suite, local, sid, Confirmed(s), Shifted(w), view);
      var rest := Deliver(suite, local, sid, Confirmed(s), Shifted(w), view);
      HandedOverStep(w, rest.window, |rest.delivered|);
    } else {
      HandedOverNothing(w);
    }
  }

  lemma RestIsBounded(w: Window)
    requires AtRest(w)
    ensures Bounded(w) && (w.deliveryNext < Next(w) <==> Accepted(w, w.deliveryNext))
    ensures Accepted(w, w.deliveryNext) ==> w.deliveryNext in w.held
  {
  }

  lemma HandedOverNothing(w: Window)
    requires AtRest(w)
    ensures HandedOver(w, w, 0)
  {
  }

  lemma HandedOverStep(w: Window, t: Window, count: nat)
    requires AtRest(w) && Accepted(w, w.deliveryNext) && AtRest(Shifted(w)) && HandedOver(Shifted(w), t, count)
    ensures HandedOver(w, t, count + 1)
    ensures Next(Shifted(w)) == Next(w) && (t.deliveryNext < Next(w) ==> Shifted(w).held[t.deliveryNext] == w.held[t.deliveryNext])
  {
  }

  lemma RemovedAtRest(w: Window)
    requires AtRest(w) && Accepted(w, w.deliveryNext)
    ensures Shifted(w).deliveryNext == w.deliveryNext + 1 && AtRest(Shifted(w))
  {
    var held := w.held - {w.deliveryNext};
    assert held.Keys == w.held.Keys - {w.deliveryNext};
    assert |held| == |held.Keys| && |w.held| == |w.held.Keys|;
  }

  /** Each delivery opens the envelope held under its own number, under a binding that checks. */
  lemma {:induction false} DeliverContents(
      suite: Suite, local: string, sid: string, s: Session, w: Window, view: ContractView, i: nat)
    requires AtRest(w) && i < |Deliver(suite, local, sid, s, w, view).delivered|
    ensures DeliveredFrom(suite, local, sid, s, w, view, Deliver(suite, local, sid, s, w, view).delivered[i], w.deliveryNext + i)
    decreases U64_MAX - w.deliveryNext
  {
    hide Opened, Check, Deliver;
    DeliverStep(suite, local, sid, s, w, view);
    if i > 0 {
      RemovedAtRest(w);
      DeliverContents(suite, local, sid, Confirmed(s), Shifted(w), view, i - 1);
      var n := w.deliveryNext + i;
      assert Deliver(suite, local, sid, s, w, view).delivered[i]
             == Deliver(suite, local, sid, Confirmed(s), Shifted(w), view).delivered[i - 1];
      OpenedByState(suite, local, s, Confirmed(s), w.held[n]);
    }
  }

  /** A delivery shows exactly what the envelope held at `n` opens to, under an accepted binding. */
  ghost predicate DeliveredFrom(
      suite: Suite, local: string, sid: string, s: Session, w: Window, view: ContractView, d: Delivery, n: nat)
  {
    n <= U64_MAX && n in w.held
    && var env := w.held[n];
       Check(suite.sha256, view, env.contract).Success? && Opened(suite, local, s, env).Success?
       && d == Delivery(sid, env.from, env.contract, n, Opened(suite, local, s, env).value)
  }

  /** The held list names everything held, lowest number first, with the reason it waits. */
  ghost predicate ReportsHeld(sid: string, w: Window, r: seq<Held>) {
    && |r| == |w.held|
    && (forall i | 0 <= i < |r| :: r[i].seq_ in w.held && r[i] == HeldEntry(sid, w, r[i].seq_))
    && forall i, j | 0 <= i < j < |r| :: r[i].seq_ < r[j].seq_
  }

  /** Nothing accepted is ruled out by the view. */
  ghost predicate Consistent(suite: Suite, w: Window, view: ContractView) {
    forall n | n in w.held && Accepted(w, n) :: !Contradicts(suite.sha256, view, w.held[n].contract)
  }

  lemma {:induction false} ContradictedMeans(suite: Suite, w: Window, view: ContractView, ns: seq<u64>)
    requires forall n | n in ns :: n in w.held
    ensures Contradicted(suite, w, view, ns).None?
            <==> forall n | n in ns && Accepted(w, n) :: !Contradicts(suite.sha256, view, w.held[n].contract)
  {
    hide Contradicts, Check;
    if ns != [] {
      ContradictedMeans(suite, w, view, ns[1..]);
      assert forall n :: n in ns <==> n == ns[0] || n in ns[1..];
    }
  }

  predicate ShowsAbort(r: ReceiveReport) {
    r.aborted.Some? && r.delivered == [] && r.held == []
  }

  /** `t` is `w` later: so many deliveries on, holding nothing that was not held before. */
  ghost predicate Later(w: Window, t: Window, delivered: nat)
    requires Bounded(w)
  {
    && AtRest(t) && t.sendSeq == w.sendSeq && t.deliveryNext == w.deliveryNext + delivered && Next(w) <= Next(t)
    && forall n | n in t.held :: n in w.held && t.held[n] == w.held[n]
  }

  /** Something accepted waits only while the first of it has its contract pending. */
  ghost predicate WaitsForContract(suite: Suite, w: Window, view: ContractView)
    requires AtRest(w)
  {
    w.deliveryNext < Next(w) ==> Check(suite.sha256, view, w.held[w.deliveryNext].contract) == Failure(ContractPending)
  }

  lemma LaterComposes(w: Window, t: Window, u: Window, count: nat)
    requires Ordered(w) && AtRest(t) && t.deliveryNext == w.deliveryNext && t.sendSeq == w.sendSeq && Next(w) <= Next(t)
    requires (forall n | n in t.held :: n in w.held && t.held[n] == w.held[n]) && HandedOver(t, u, count)
    ensures Later(w, u, count) && Next(u) == Next(t)
  {
  }

  /** A drain that did not abort, taken apart into its three passes. */
  lemma DrainPasses(suite: Suite, local: string, sid: string, s: Session, w: Window, view: ContractView)
    requires Bounded(w)
    ensures var o := Drain(suite, local, sid, s, w, view);
            var a := Authenticate(suite, local, s, w, view);
            Bounded(a.window) &&
            var d := Deliver(suite, local, sid, a.session, a.window, view);
            var ns := Sorted(d.window.held.Keys);
            if o.rest.None? then ShowsAbort(o.report)
            else a.abort.None? && d.abort.None? && o.rest == Some((d.session, d.window))
                 && o.report == ReceiveReport(d.delivered, HeldReport(sid, d.window, ns), a.rejected, None)
                 && Contradicted(suite, d.window, view, ns).None?
  {
    hide Authenticate, Deliver, Contradicted, Bounded, Sorted, HeldReport;
    AuthenticateBounded(suite, local, s, w, view);
  }

  /**
   A drain that does not abort leaves the window at rest, nothing accepted ruled out, and
   something accepted undelivered only when the first of it waits for its contract.
   */
  lemma DrainRests(suite: Suite, local: string, sid: string, s: Session, w: Window, view: ContractView)
    requires Ordered(w)
    ensures var o := Drain(suite, local, sid, s, w, view);
            if o.rest.None? then ShowsAbort(o.report)
            else Later(w, o.rest.value.1, |o.report.delivered|) && SameSession(s, o.rest.value.0) && o.report.aborted.None?
                 && ReportsHeld(sid, o.rest.value.1, o.report.held) && Consistent(suite, o.rest.value.1, view)
                 && WaitsForContract(suite, o.rest.value.1, view)
  {
    hide Opened, Check, Contradicts, Authenticate, Deliver, Contradicted, Drain, Sorted, HeldReport;
    hide Bounded, AtRest, HandedOver, Later, ReportsHeld, Consistent, WaitsForContract;
    OrderedIsBounded(w);
    DrainPasses(suite, local, sid, s, w, view);
    var o := Drain(suite, local, sid, s, w, view);
    if o.rest.Some? {
      var w' := o.rest.value.1;
      var a := Authenticate(suite, local, s, w, view);
      AuthenticateOrdered(suite, local, s, w, view);
      DeliverOrdered(suite, local, sid, a.session, a.window, view);
      LaterComposes(w, a.window, w', |o.report.delivered|);
      ScanPassed(suite, sid, w', view);
      HeadWaits(suite, a.window, w', |o.report.delivered|, view);
    }
  }

  lemma OrderedIsBounded(w: Window)
    requires Ordered(w)
    ensures Bounded(w)
  {
  }

  lemma ScanPassed(suite: Suite, sid: string, w: Window, view: ContractView)
    requires Contradicted(suite, w, view, Sorted(w.held.Keys)).None?
    ensures Consistent(suite, w, view) && ReportsHeld(sid, w, HeldReport(sid, w, Sorted(w.held.Keys)))
  {
    hide Contradicted, Contradicts;
    ContradictedMeans(suite, w, view, Sorted(w.held.Keys));
    assert |w.held| == |w.held.Keys|;
  }

  lemma HeadWaits(suite: Suite, w: Window, t: Window, count: nat, view: ContractView)
    requires AtRest(w) && HandedOver(w, t, count)
    requires t.deliveryNext < Next(w) ==> Check(suite.sha256, view, w.held[t.deliveryNext].contract) == Failure(ContractPending)
    ensures WaitsForContract(suite, t, view)
  {
    hide Check;
  }

  /** Observing again with the same view changes nothing and shows the same holds. */
  lemma DrainIdempotent(suite: Suite, local: string, sid: string, s: Session, w: Window, view: ContractView)
    requires Ordered(w) && Drain(suite, local, sid, s, w, view).rest.Some?
    ensures var o := Drain(suite, local, sid, s, w, view);
            Bounded(o.rest.value.1)
            && Drain(suite, local, sid, o.rest.value.0, o.rest.value.1, view) == Outcome(o.rest, EMPTY.(held := o.report.held))
  {
    hide Opened, Check, Contradicts, Drain;
    DrainRests(suite, local, sid, s, w, view);
    DrainPasses(suite, local, sid, s, w, view);
    var o := Drain(suite, local, sid, s, w, view);
    NothingToDo(suite, local, sid, o.rest.value.0, o.rest.value.1, view);
  }

  /** A window whose head waits and that holds nothing ruled out is left alone. */
  lemma NothingToDo(suite: Suite, local: string, sid: string, s: Session, w: Window, view: ContractView)
    requires AtRest(w) && WaitsForContract(suite, w, view)
    requires Contradicted(suite, w, view, Sorted(w.held.Keys)).None?
    ensures Drain(suite, local, sid, s, w, view)
            == Outcome(Some((s, w)), EMPTY.(held := HeldReport(sid, w, Sorted(w.held.Keys))))
  {
    hide Opened, Check, Contradicts, Contradicted, Sorted, HeldReport;
    RestIsBounded(w);
    assert Authenticate(suite, local, s, w, view) == Authenticated(s, w, [], None);
    assert Deliver(suite, local, sid, s, w, view) == Delivering(s, w, [], None);
  }

  /** `t` is `w` later, with `env` possibly among what it holds. */
  ghost predicate Moved(w: Window, t: Window, delivered: nat, env: SecureEnvelope) {
    && t.sendSeq == w.sendSeq && t.deliveryNext == w.deliveryNext + delivered
    && forall n | n in t.held :: (n in w.held && t.held[n] == w.held[n]) || t.held[n] == env
  }

  /** Arrivals keep the window at rest, or end the session. */
  lemma ArriveRests(suite: Suite, local: string, sid: string, s: Session, w: Window, env: SecureEnvelope, view: ContractView)
    requires AtRest(w) && env.seq_.Some?
    ensures var o := Arrive(suite, local, sid, s, w, env, view);
            if o.rest.None? then ShowsAbort(o.report)
            else SameSession(s, o.rest.value.0) && o.report.aborted.None?
                 && AtRest(o.rest.value.1) && Moved(w, o.rest.value.1, |o.report.delivered|, env)
                 && (env.seq_.value == Next(w) && Opened(suite, local, s, env).Success? ==>
                       Accepted(o.rest.value.1, env.seq_.value) && WaitsForContract(suite, o.rest.value.1, view))
  {
    hide Opened, Check, Contradicts, Drain, Bounded;
    var n := env.seq_.value;
    if n < U64_MAX && !Accepted(w, n) && n !in w.held && |w.held| < HOLD_LIMIT {
      HoldingOneMore(w, n, env);
      if n == Next(w) && Opened(suite, local, s, env).Success? && !Contradicts(suite.sha256, view, env.contract) {
        DrainRests(suite, local, sid, Confirmed(s), w.(high := Some(n), held := w.held[n := env]), view);
      }
    }
  }

  /** A drain whose three passes are known and none of which aborts. */
  lemma DrainFromPasses(
      suite: Suite, local: string, sid: string, s: Session, w: Window, view: ContractView, t: Window, shown: seq<Delivery>)
    requires Bounded(w) && Authenticate(suite, local, s, w, view) == Authenticated(s, w, [], None)
    requires Deliver(suite, local, sid, s, w, view) == Delivering(s, t, shown, None) && t.held == map[]
    ensures Drain(suite, local, sid, s, w, view) == Outcome(Some((s, t)), EMPTY.(delivered := shown))
  {
    hide Authenticate, Deliver;
    assert t.held.Keys == {};
  }

  /** One envelope, accepted and undelivered, is all the window holds. */
  lemma OnlyOneHeld(
      suite: Suite, local: string, sid: string, s: Session, w: Window, env: SecureEnvelope, view: ContractView, n: u64)
    requires n < U64_MAX && env.seq_ == Some(n)
    requires w.high == Some(n) && w.deliveryNext == n && w.held == map[n := env] && s.state.Established?
    requires Opened(suite, local, s, env).Success? && Check(suite.sha256, view, env.contract).Success?
    ensures Bounded(w) && Authenticate(suite, local, s, w, view) == Authenticated(s, w, [], None)
    ensures Deliver(suite, local, sid, s, w, view)
            == Delivering(s, w.(held := map[], deliveryNext := n + 1),
                          [Delivery(sid, env.from, env.contract, n, Opened(suite, local, s, env).value)], None)
  {
    hide Check, Opened;
    assert Confirmed(s) == s;
    assert w.held - {n} == map[];
    var t := w.(held := map[], deliveryNext := n + 1);
    assert Deliver(suite, local, sid, s, t, view) == Delivering(s, t, [], None);
  }

  /** In order, with nothing waiting and an accepted binding, a message is shown at once. */
  lemma InOrderDelivery(
      suite: Suite, local: string, sid: string, s: Session, w: Window, env: SecureEnvelope, view: ContractView)
    requires AtRest(w) && w.held == map[] && env.seq_ == Some(Next(w)) && Next(w) < U64_MAX
    requires Opened(suite, local, s, env).Success? && Check(suite.sha256, view, env.contract).Success?
    ensures var n := Next(w);
            Arrive(suite, local, sid, s, w, env, view)
            == Outcome(Some((Confirmed(s), w.(high := Some(n), deliveryNext := n + 1))),
                       EMPTY.(delivered := [Delivery(sid, env.from, env.contract, n, Opened(suite, local, s, env).value)]))
  {
    hide Check, Opened, Drain, Authenticate, Deliver;
    var n := Next(w);
    var s' := Confirmed(s);
    var w' := w.(high := Some(n), held := map[n := env]);
    OpenedByState(suite, local, s, s', env);
    OnlyOneHeld(suite, local, sid, s', w', env, view, n);
    var t := w'.(held := map[], deliveryNext := n + 1);
    DrainFromPasses(suite, local, sid, s', w', view, t, Deliver(suite, local, sid, s', w', view).delivered);
    assert w.held[n := env] == map[n := env];
  }

  lemma HoldingOneMore(w: Window, n: u64, env: SecureEnvelope)
    requires AtRest(w) && env.seq_ == Some(n) && n < U64_MAX && !Accepted(w, n) && n !in w.held && |w.held| < HOLD_LIMIT
    ensures n > Next(w) ==> AtRest(w.(held := w.held[n := env]))
    ensures n == Next(w) ==> Ordered(w.(high := Some(n), held := w.held[n := env]))
  {
    OneMore(w.held, n, env);
    if n == Next(w) {
      NextIsHeld(w, env);
    }
  }

  lemma OneMore(held: map<u64, SecureEnvelope>, n: u64, env: SecureEnvelope)
    requires n !in held
    ensures |held[n := env]| == |held| + 1
  {
    assert held[n := env].Keys == held.Keys + {n};
    assert |held[n := env]| == |held[n := env].Keys| && |held| == |held.Keys|;
  }

  lemma NextIsHeld(w: Window, env: SecureEnvelope)
    requires Ordered(w) && env.seq_ == Some(Next(w)) && Next(w) < U64_MAX && Next(w) !in w.held && |w.held| < HOLD_LIMIT
    ensures Ordered(w.(high := Some(Next(w)), held := w.held[Next(w) := env]))
  {
    OneMore(w.held, Next(w), env);
  }

  /** What a drain shows was held before it, under the numbers from the cursor on. */
  lemma DrainContents(suite: Suite, local: string, sid: string, s: Session, w: Window, view: ContractView, i: nat)
    requires Ordered(w) && i < |Drain(suite, local, sid, s, w, view).report.delivered|
    ensures DeliveredFrom(suite, local, sid, s, w, view, Drain(suite, local, sid, s, w, view).report.delivered[i], w.deliveryNext + i)
  {
    hide Opened, Check, Contradicts, Authenticate, Deliver, Contradicted, Drain, AtRest;
    DrainPasses(suite, local, sid, s, w, view);
    var a := Authenticate(suite, local, s, w, view);
    AuthenticateOrdered(suite, local, s, w, view);
    DeliverContents(suite, local, sid, a.session, a.window, view, i);
    OpenedByState(suite, local, s, a.session, w.held[w.deliveryNext + i]);
  }

  /** What an arrival shows was held before it, or is the arrival itself. */
  lemma ArriveContents(
      suite: Suite, local: string, sid: string, s: Session, w: Window, env: SecureEnvelope, view: ContractView, i: nat)
    requires AtRest(w) && env.seq_.Some? && i < |Arrive(suite, local, sid, s, w, env, view).report.delivered|
    ensures var n := env.seq_.value;
            DeliveredFrom(suite, local, sid, s, w.(held := w.held[n := env]), view,
                          Arrive(suite, local, sid, s, w, env, view).report.delivered[i], w.deliveryNext + i)
            && n !in w.held
  {
    hide Opened, Check, Contradicts, Drain, Bounded;
    var n := env.seq_.value;
    HoldingOneMore(w, n, env);
    var w' := w.(high := Some(n), held := w.held[n := env]);
    DrainContents(suite, local, sid, Confirmed(s), w', view, i);
    OpenedByState(suite, local, s, Confirmed(s), w'.held[w.deliveryNext + i]);
  }
}
