/**
 The transport transactions of a guardian (`src/secure/transport.rs`): windows updated in
 place beside the session table they share their sessions with.
 */
module Transports {
  import opened Wrappers
  import opened Text
  import opened Secure
  import opened Crypto
  import opened Envelope
  import opened Sessions
  import opened Binding
  import opened Windows
  import opened Endpoints
  import opened Managers

  /** Held envelopes name the session that holds them. */
  ghost predicate HoldsOwn(sid: string, w: Window) {
    Bounded(w) && forall n | n in w.held :: w.held[n].sid == Some(sid)
  }

  lemma InvalidStaysClosed(suite: Suite, local: string, s: Session, env: SecureEnvelope)
    ensures !Valid(suite.rfc3339, env) || !env.kind.Msg? ==> Opened(suite, local, s, env) == Failure(SchemaViolation)
  {
    hide Header;
  }

  datatype TransportStatus = TransportStatus(sendSeq: u64, recvHigh: Option<u64>, held: nat)

  class Transport {
    var windows: map<string, Window>

    ghost predicate Valid()
      reads this
    {
      forall sid | sid in windows :: HoldsOwn(sid, windows[sid])
    }

    /** The transport and its session table as one value. */
    ghost function State(manager: SessionManager): Endpoint
      reads this, manager
    {
      Endpoint(manager.local, manager.identity, manager.active, windows)
    }

    constructor ()
      ensures Valid() && windows == map[]
    {
      windows := map[];
    }

    function Status(sid: string): TransportStatus
      reads this
    {
      if sid in windows then TransportStatus(windows[sid].sendSeq, windows[sid].high, |windows[sid].held|)
      else TransportStatus(0, None, 0)
    }

    method Close(manager: SessionManager, sid: string) returns (r: Result<Unit, SecureError>)
      requires Valid() && manager.Valid()
      modifies this, manager`active
      ensures Valid() && manager.Valid()
      ensures State(manager) == Closed(old(State(manager)), sid)
      ensures r == if sid in old(manager.active) then Success(Unit) else Failure(SessionUnknown)
    {
      windows := windows - {sid};
      r := manager.Close(sid);
    }

    /** Ends the session and takes back what the report was about to show. */
    method Abort(manager: SessionManager, sid: string, error: SecureError, report: ReceiveReport) returns (r: ReceiveReport)
      requires Valid() && manager.Valid()
      modifies this, manager`active
      ensures Valid() && manager.Valid()
      ensures State(manager) == Closed(old(State(manager)), sid) && r == Aborted(error, report.rejected)
    {
      var _ := Close(manager, sid);
      r := report.(delivered := [], held := [], aborted := Some(error));
    }

    method Retain(manager: SessionManager)
      requires Valid()
      modifies this
      ensures Valid() && State(manager) == Retained(old(State(manager)))
    {
      windows := map sid | sid in windows && manager.Info(sid).Success? :: windows[sid];
    }

    method Seal(manager: SessionManager, sid: string, contract: string, payload: Bytes, view: ContractView)
      returns (r: Result<SecureEnvelope, SecureError>)
      requires Valid() && manager.Valid()
      modifies this, manager`active
      ensures Valid() && manager.Valid()
      ensures (State(manager), r) == SealStep(manager.suite, old(State(manager)), sid, contract, payload, view)
    {
      hide Check, SealMessage, HoldsOwn, SessionManager.Valid, PutSealed;
      Retain(manager);
      if manager.Info(sid).Failure? {
        return Failure(SessionUnknown);
      }
      var binding := Check(manager.suite.sha256, view, contract);
      if binding.Failure? && binding.error != ContractPending {
        var _ := Close(manager, sid);
        return Failure(binding.error);
      }
      var w := if sid in windows then windows[sid] else FRESH;
      if w.sendSeq == U64_MAX {
        var _ := Close(manager, sid);
        return Failure(SessionExhausted);
      }
      r := SealNext(manager, sid, contract, payload);
    }

    /** Seals under the window's number, which is moved on with the session's when it succeeds. */
    method SealNext(manager: SessionManager, sid: string, contract: string, payload: Bytes)
      returns (r: Result<SecureEnvelope, SecureError>)
      requires Valid() && manager.Valid() && sid in manager.active && WindowOf(State(manager), sid).sendSeq < U64_MAX
      modifies this, manager`active
      ensures Valid() && manager.Valid()
      ensures var e := old(State(manager));
              var w := WindowOf(e, sid);
              var sealed := SealMessage(manager.suite, e.local, e.identity, sid, e.active[sid], w.sendSeq, contract, payload);
              r == sealed.envelope
              && State(manager) == PutSealed(e, sid, sealed.session, if r.Success? then w.(sendSeq := w.sendSeq + 1) else w)
    {
      hide SealMessage, HoldsOwn, SessionManager.Valid;
      FreshHoldsNothing(sid);
      var w := if sid in windows then windows[sid] else FRESH;
      windows := windows[sid := w];
      CounterHoldsOwn(sid, w, w.sendSeq + 1);
      r := manager.Seal(sid, w.sendSeq, contract, payload);
      if r.Success? {
        windows := windows[sid := w.(sendSeq := w.sendSeq + 1)];
      }
    }

    /** Opens an envelope held for a session. */
    method OpenHeld(manager: SessionManager, sid: string, env: SecureEnvelope) returns (r: Result<Bytes, SecureError>)
      requires manager.Valid() && sid in manager.active
      requires env.sid == Some(sid) && env.seq_.Some? && env.seq_.value < U64_MAX
      modifies manager`active
      ensures manager.Valid()
      ensures r == Opened(manager.suite, manager.local, old(manager.active)[sid], env)
      ensures sid in manager.active && manager.active[sid] == After(old(manager.active)[sid], r)
      ensures manager.active == old(manager.active)[sid := manager.active[sid]]
    {
      hide SessionManager.Valid, Verify, OpenVerified, Header;
      assert manager.active[sid := manager.active[sid]] == manager.active;
      InvalidStaysClosed(manager.suite, manager.local, manager.active[sid], env);
      r := manager.OpenAuthenticated(env);
    }

    /** First pass of a drain: authenticates the held envelopes that continue the mark. */
    method AuthenticateHeld(manager: SessionManager, sid: string, view: ContractView)
      returns (rejected: seq<SecureError>, abort: Option<SecureError>)
      requires Valid() && manager.Valid() && sid in windows && sid in manager.active
      modifies this, manager`active
      ensures Valid() && manager.Valid()
      ensures sid in windows && sid in manager.active && Replaced(old(State(manager)), State(manager), sid)
      ensures Bounded(old(windows)[sid])
      ensures Authenticate(manager.suite, manager.local, old(manager.active)[sid], old(windows)[sid], view)
              == Authenticated(manager.active[sid], windows[sid], rejected, abort)
    {
      hide Check, Opened, SessionManager.Valid, HoldsOwn, Bounded, Authenticate;
      HoldsBounded(sid, windows[sid]);
      ghost var all := Authenticate(manager.suite, manager.local, manager.active[sid], windows[sid], view);
      while true
        invariant Valid() && manager.Valid() && sid in windows && sid in manager.active
        invariant windows == old(windows)[sid := windows[sid]] && manager.active == old(manager.active)[sid := manager.active[sid]]
        invariant Bounded(windows[sid])
        invariant all == Authenticate(manager.suite, manager.local, manager.active[sid], windows[sid], view)
        decreases U64_MAX - Next(windows[sid])
      {
        var w := windows[sid];
        var next := Next(w);
        AuthenticateStep(manager.suite, manager.local, manager.active[sid], w, view);
        if next !in w.held {
          return [], None;
        }
        var env := w.held[next];
        HeldNumber(sid, w, next);
        var plain := OpenHeld(manager, sid, env);
        if plain.Failure? {
          windows := windows[sid := w.(held := w.held - {next})];
          return [plain.error], None;
        }
        windows := windows[sid := w.(high := Some(next))];
        var binding := Check(manager.suite.sha256, view, env.contract);
        if binding.Failure? && binding.error != ContractPending {
          return [], Some(binding.error);
        }
      }
    }

    /** Second pass: hands over accepted envelopes in order until one has to wait. */
    method DeliverAccepted(manager: SessionManager, sid: string, view: ContractView)
      returns (delivered: seq<Delivery>, abort: Option<SecureError>)
      requires Valid() && manager.Valid() && sid in windows && sid in manager.active
      modifies this, manager`active
      ensures Valid() && manager.Valid()
      ensures sid in windows && sid in manager.active && Replaced(old(State(manager)), State(manager), sid)
      ensures Bounded(old(windows)[sid])
      ensures Deliver(manager.suite, manager.local, sid, old(manager.active)[sid], old(windows)[sid], view)
              == Delivering(manager.active[sid], windows[sid], delivered, abort)
    {
      hide Check, Opened, SessionManager.Valid, HoldsOwn, Bounded, Deliver;
      HoldsBounded(sid, windows[sid]);
      delivered := [];
      ghost var all := Deliver(manager.suite, manager.local, sid, manager.active[sid], windows[sid], view);
      while true
        invariant Valid() && manager.Valid() && sid in windows && sid in manager.active
        invariant windows == old(windows)[sid := windows[sid]] && manager.active == old(manager.active)[sid := manager.active[sid]]
        invariant Bounded(windows[sid])
        invariant all == Prefixed(delivered, Deliver(manager.suite, manager.local, sid, manager.active[sid], windows[sid], view))
        decreases U64_MAX - windows[sid].deliveryNext
      {
        var w := windows[sid];
        var next := w.deliveryNext;
        DeliverOnce(manager.suite, manager.local, sid, manager.active[sid], w, view);
        if !Accepted(w, next) || next !in w.held {
          return delivered, None;
        }
        var env := w.held[next];
        var binding := Check(manager.suite.sha256, view, env.contract);
        if binding.Failure? {
          return delivered, if binding.error == ContractPending then None else Some(binding.error);
        }
        HeldNumber(sid, w, next);
        var plain := OpenHeld(manager, sid, env);
        if plain.Failure? {
          return delivered, Some(plain.error);
        }
        delivered := delivered + [Delivery(sid, env.from, env.contract, next, plain.value)];
        windows := windows[sid := w.(held := w.held - {next}, deliveryNext := next + 1)];
      }
    }

    method Drain(manager: SessionManager, sid: string, view: ContractView) returns (report: ReceiveReport)
      requires Valid() && manager.Valid() && sid in manager.active && (sid in windows ==> Bounded(windows[sid]))
      modifies this, manager`active
      ensures Valid() && manager.Valid()
      ensures if sid !in old(windows) then State(manager) == old(State(manager)) && report == EMPTY
              else
                var o := Windows.Drain(manager.suite, manager.local, sid, old(manager.active)[sid], old(windows)[sid], view);
                State(manager) == Put(old(State(manager)), sid, o.rest) && report == o.report
    {
      hide SessionManager.Valid, HoldsOwn, Bounded, Authenticate, Deliver, Contradicted, Sorted, HeldReport, Windows.Drain;
      hide Put, Closed, Replaced;
      report := EMPTY;
      if sid !in windows {
        return;
      }
      ghost var e := State(manager);
      DrainByPasses(manager.suite, manager.local, sid, manager.active[sid], windows[sid], view);
      var rejected, abort := AuthenticateHeld(manager, sid, view);
      report := report.(rejected := rejected);
      ghost var e1 := State(manager);
      if abort.None? {
        var delivered, failure := DeliverAccepted(manager, sid, view);
        report, abort := report.(delivered := delivered), failure;
        ReplacedTwice(e, e1, State(manager), sid);
      }
      if abort.None? {
        var held, failure := ListHeld(manager.suite, sid, windows[sid], view);
        report, abort := report.(held := held), failure;
      }
      ReplacedIsPut(e, State(manager), sid);
      if abort.Some? {
        report := Abort(manager, sid, abort.value, report);
      }
    }

    /** A message beyond the next number: it waits for the hole to fill, if there is room. */
    method HoldEarly(manager: SessionManager, sid: string, env: SecureEnvelope, view: ContractView) returns (report: ReceiveReport)
      requires Valid() && manager.Valid() && sid in windows && Bounded(windows[sid])
      requires env.sid == Some(sid) && env.seq_.Some? && Next(windows[sid]) < env.seq_.value < U64_MAX
      requires env.seq_.value !in windows[sid].held
      modifies this, manager`active
      ensures Valid() && manager.Valid()
      requires sid in manager.active
      ensures var o := Arrive(manager.suite, manager.local, sid, old(manager.active)[sid], old(windows)[sid], env, view);
              State(manager) == Put(old(State(manager)), sid, o.rest) && report == o.report
    {
      hide SessionManager.Valid, HoldsOwn, Bounded, Opened, Contradicts, Windows.Drain, Put, Closed;
      report := EMPTY;
      var w, n := windows[sid], env.seq_.value;
      ghost var e := State(manager);
      ReplacedIsPut(e, e, sid);
      var gaps := Gaps(w);
      var abort := if |w.held| >= HOLD_LIMIT then Some(HoldOverflow)
                   else if gaps != {} && forall g | g in gaps :: n > g then Some(SequenceGap) else None;
      if abort.Some? {
        report := Abort(manager, sid, abort.value, report);
      } else {
        HoldingKeeps(sid, w, n, env);
        windows := windows[sid := w.(held := w.held[n := env])];
        report := report.(held := [Held(sid, n, "SequencePending")]);
        ReplacedIsPut(e, State(manager), sid);
      }
    }

    /** The message with the next number: authenticated, put with the held ones, and drained. */
    method AdmitNext(manager: SessionManager, sid: string, env: SecureEnvelope, view: ContractView) returns (report: ReceiveReport)
      requires Valid() && manager.Valid() && sid in manager.active && sid in windows && Bounded(windows[sid])
      requires env.sid == Some(sid) && env.seq_ == Some(Next(windows[sid])) && Next(windows[sid]) < U64_MAX
      requires Next(windows[sid]) !in windows[sid].held
      modifies this, manager`active
      ensures Valid() && manager.Valid()
      ensures var o := Arrive(manager.suite, manager.local, sid, old(manager.active)[sid], old(windows)[sid], env, view);
              State(manager) == Put(old(State(manager)), sid, o.rest) && report == o.report
    {
      hide Check, SessionManager.Valid, HoldsOwn, Bounded, Opened, Windows.Drain, Put, Closed, Arrive;
      ArriveNext(manager.suite, manager.local, sid, manager.active[sid], windows[sid], env, view);
      report := EMPTY;
      ghost var e := State(manager);
      var w, n := windows[sid], Next(windows[sid]);
      HoldingKeeps(sid, w, n, env);
      var plain := OpenHeld(manager, sid, env);
      if plain.Failure? {
        ReplacedIsPut(e, State(manager), sid);
        return report.(rejected := [plain.error]);
      }
      var binding := Check(manager.suite.sha256, view, env.contract);
      var abort := if binding.Failure? && binding.error != ContractPending then Some(binding.error)
                   else if |w.held| >= HOLD_LIMIT then Some(HoldOverflow) else None;
      windows := windows[sid := if abort.Some? then w.(high := Some(n)) else w.(high := Some(n), held := w.held[n := env])];
      ghost var e1 := State(manager);
      ReplacedIsPut(e, e1, sid);
      if abort.Some? {
        report := Abort(manager, sid, abort.value, report);
      } else {
        report := Drain(manager, sid, view);
        forall rest ensures Put(e1, sid, rest) == Put(e, sid, rest) {
          PutLater(e, e1, sid, rest);
        }
      }
    }

    /** A message that verified meets its session's window. */
    method Admit(manager: SessionManager, sid: string, env: SecureEnvelope, view: ContractView) returns (report: ReceiveReport)
      requires Valid() && manager.Valid() && sid in manager.active && WindowsBounded(State(manager))
      requires env.sid == Some(sid) && env.seq_.Some?
      modifies this, manager`active
      ensures Valid() && manager.Valid()
      ensures var w := WindowOf(old(State(manager)), sid);
              var o := Arrive(manager.suite, manager.local, sid, old(manager.active)[sid], w, env, view);
              State(manager) == Put(old(State(manager)), sid, o.rest) && report == o.report
    {
      hide SessionManager.Valid, HoldsOwn, Arrive, Put, Closed;
      ghost var e := State(manager);
      FreshHoldsNothing(sid);
      var w := if sid in windows then windows[sid] else FRESH;
      windows := windows[sid := w];
      ghost var e1 := State(manager);
      ReplacedIsPut(e, e1, sid);
      forall rest ensures Put(e1, sid, rest) == Put(e, sid, rest) {
        PutLater(e, e1, sid, rest);
      }
      HoldsBounded(sid, w);
      var n := env.seq_.value;
      ArriveRefused(manager.suite, manager.local, sid, manager.active[sid], w, env, view);
      if Accepted(w, n) || n in w.held {
        report := EMPTY.(rejected := [ReplayRejected]);
      } else if n == U64_MAX {
        report := Abort(manager, sid, SessionExhausted, EMPTY);
      } else if n > Next(w) {
        report := HoldEarly(manager, sid, env, view);
      } else {
        report := AdmitNext(manager, sid, env, view);
      }
    }

    /** A message comes in from the edge. */
    method Receive(manager: SessionManager, env: SecureEnvelope, view: ContractView) returns (report: ReceiveReport)
      requires Valid() && manager.Valid()
      modifies this, manager`active
      ensures Valid() && manager.Valid() && WindowsBounded(old(State(manager)))
      ensures (State(manager), report) == ReceiveStep(manager.suite, old(State(manager)), env, view)
    {
      hide SessionManager.Valid, HoldsOwn, Verify, Arrive;
      BoundedWhenHeld(State(manager));
      Retain(manager);
      report := EMPTY;
      if !Envelope.Valid(manager.suite.rfc3339, env) || !env.kind.Msg? {
        return report.(rejected := [SchemaViolation]);
      }
      ValidMessage(manager.suite, env);
      var verified := manager.VerifyMessage(env);
      if verified.Failure? {
        return report.(rejected := [verified.error]);
      }
      report := Admit(manager, env.sid.value, env, view);
    }

    /** The guardian looks again at what is held, under a newer view of the contracts. */
    method Observe(manager: SessionManager, sid: string, view: ContractView) returns (report: ReceiveReport)
      requires Valid() && manager.Valid()
      modifies this, manager`active
      ensures Valid() && manager.Valid() && WindowsBounded(old(State(manager)))
      ensures (State(manager), report) == ObserveStep(manager.suite, old(State(manager)), sid, view)
    {
      hide SessionManager.Valid, HoldsOwn, Windows.Drain;
      BoundedWhenHeld(State(manager));
      var info := manager.Info(sid);
      if info.Failure? {
        windows := windows - {sid};
        return EMPTY.(rejected := [info.error]);
      }
      report := Drain(manager, sid, view);
    }
  }

  /** Closing forgets what happened to the session before. */
  lemma ClosedLater(e: Endpoint, e': Endpoint, sid: string)
    requires e'.local == e.local && e'.identity == e.identity
    requires sid in e'.active && e'.active == e.active[sid := e'.active[sid]]
    requires sid in e'.windows && e'.windows == e.windows[sid := e'.windows[sid]]
    ensures Closed(e', sid) == Closed(e, sid)
  {
    assert e.active[sid := e'.active[sid]] - {sid} == e.active - {sid};
    assert e.windows[sid := e'.windows[sid]] - {sid} == e.windows - {sid};
  }

  /** `e'` differs from `e` at most in one live session and its window. */
  ghost predicate Replaced(e: Endpoint, e': Endpoint, sid: string) {
    && e'.local == e.local && e'.identity == e.identity
    && sid in e'.active && e'.active == e.active[sid := e'.active[sid]]
    && sid in e'.windows && e'.windows == e.windows[sid := e'.windows[sid]]
  }

  lemma ReplacedIsPut(e: Endpoint, e': Endpoint, sid: string)
    requires Replaced(e, e', sid)
    ensures e' == Put(e, sid, Some((e'.active[sid], e'.windows[sid]))) && Closed(e', sid) == Put(e, sid, None)
  {
    ClosedLater(e, e', sid);
  }

  lemma ReplacedTwice(e: Endpoint, e': Endpoint, e'': Endpoint, sid: string)
    requires Replaced(e, e', sid) && Replaced(e', e'', sid)
    ensures Replaced(e, e'', sid)
  {
  }

  /** What is put later replaces what was put before. */
  lemma PutLater(e: Endpoint, e': Endpoint, sid: string, rest: Option<(Session, Window)>)
    requires Replaced(e, e', sid)
    ensures Put(e', sid, rest) == Put(e, sid, rest)
  {
    ClosedLater(e, e', sid);
    if rest.Some? {
      assert e'.active[sid := rest.value.0] == e.active[sid := rest.value.0];
      assert e'.windows[sid := rest.value.1] == e.windows[sid := rest.value.1];
    }
  }

  lemma ArriveNext(suite: Suite, local: string, sid: string, s: Session, w: Window, env: SecureEnvelope, view: ContractView)
    requires Bounded(w) && env.seq_ == Some(Next(w)) && Next(w) < U64_MAX && Next(w) !in w.held
    ensures var n := Next(w);
            var o := Arrive(suite, local, sid, s, w, env, view);
            var plain, binding := Opened(suite, local, s, env), Check(suite.sha256, view, env.contract);
            if plain.Failure? then o == Outcome(Some((s, w)), Rejection(plain.error))
            else if binding.Failure? && binding.error != ContractPending then o == Outcome(None, Aborted(binding.error, []))
            else if |w.held| >= HOLD_LIMIT then o == Outcome(None, Aborted(HoldOverflow, []))
            else
              var w' := w.(high := Some(n), held := w.held[n := env]);
              Bounded(w') && o == Windows.Drain(suite, local, sid, Confirmed(s), w', view)
  {
    hide Opened, Check, Windows.Drain;
  }

  lemma ArriveRefused(suite: Suite, local: string, sid: string, s: Session, w: Window, env: SecureEnvelope, view: ContractView)
    requires Bounded(w) && env.seq_.Some?
    ensures var n := env.seq_.value;
            var o := Arrive(suite, local, sid, s, w, env, view);
            if Accepted(w, n) || n in w.held then o == Outcome(Some((s, w)), Rejection(ReplayRejected))
            else n == U64_MAX ==> o == Outcome(None, Aborted(SessionExhausted, []))
  {
    hide Opened, Contradicts, Drain;
  }

  /** A drain, taken apart into its three passes. */
  lemma DrainByPasses(suite: Suite, local: string, sid: string, s: Session, w: Window, view: ContractView)
    requires Bounded(w)
    ensures var o := Windows.Drain(suite, local, sid, s, w, view);
            var a := Authenticate(suite, local, s, w, view);
            if a.abort.Some? then o == Outcome(None, Aborted(a.abort.value, a.rejected))
            else
              Bounded(a.window) &&
              var d := Deliver(suite, local, sid, a.session, a.window, view);
              var ns := Sorted(d.window.held.Keys);
              if d.abort.Some? then o == Outcome(None, Aborted(d.abort.value, a.rejected))
              else
                match Contradicted(suite, d.window, view, ns)
                case Some(e) => o == Outcome(None, Aborted(e, a.rejected))
                case None => o == Outcome(Some((d.session, d.window)),
                                          ReceiveReport(d.delivered, HeldReport(sid, d.window, ns), a.rejected, None))
  {
    hide Authenticate, Deliver, Contradicted, Bounded, Sorted, HeldReport;
    AuthenticateBounded(suite, local, s, w, view);
  }

  lemma HeldReportSnoc(sid: string, w: Window, ns: seq<u64>, i: nat)
    requires i < |ns|
    ensures HeldReport(sid, w, ns[..i + 1]) == HeldReport(sid, w, ns[..i]) + [HeldEntry(sid, w, ns[i])]
  {
    hide HeldEntry;
  }

  lemma ContradictedStep(suite: Suite, w: Window, view: ContractView, ns: seq<u64>)
    requires ns != [] && forall n | n in ns :: n in w.held
    ensures var binding := Check(suite.sha256, view, w.held[ns[0]].contract);
            Contradicted(suite, w, view, ns)
            == if Accepted(w, ns[0]) && binding.Failure? && binding.error != ContractPending then Some(binding.error)
               else Contradicted(suite, w, view, ns[1..])
  {
    hide Check;
  }

  /** Third pass of a drain: lists what stays held, unless something accepted is ruled out. */
  method ListHeld(suite: Suite, sid: string, w: Window, view: ContractView) returns (held: seq<Held>, abort: Option<SecureError>)
    ensures var ns := Sorted(w.held.Keys);
            abort == Contradicted(suite, w, view, ns) && (abort.None? ==> held == HeldReport(sid, w, ns))
  {
    hide Check, Sorted, HeldReport, Contradicted;
    var ns := Sorted(w.held.Keys);
    held := [];
    for i := 0 to |ns|
      invariant held == HeldReport(sid, w, ns[..i])
      invariant Contradicted(suite, w, view, ns) == Contradicted(suite, w, view, ns[i..])
    {
      var n := ns[i];
      assert ns[i..][0] == n && ns[i..][1..] == ns[i + 1..];
      ContradictedStep(suite, w, view, ns[i..]);
      if Accepted(w, n) {
        var binding := Check(suite.sha256, view, w.held[n].contract);
        if binding.Failure? && binding.error != ContractPending {
          return held, Some(binding.error);
        }
      }
      held := held + [Held(sid, n, if Accepted(w, n) then "ContractPending" else "SequencePending")];
      HeldReportSnoc(sid, w, ns, i);
    }
    assert ns[..|ns|] == ns && ns[|ns|..] == [];
    NoneContradicted(suite, w, view);
    return held, None;
  }

  lemma NoneContradicted(suite: Suite, w: Window, view: ContractView)
    ensures Contradicted(suite, w, view, []).None?
  {
  }

  lemma HoldingKeeps(sid: string, w: Window, n: u64, env: SecureEnvelope)
    requires HoldsOwn(sid, w) && env.sid == Some(sid) && env.seq_ == Some(n) && n < U64_MAX
    ensures HoldsOwn(sid, w.(held := w.held[n := env])) && HoldsOwn(sid, w.(high := Some(n)))
    ensures HoldsOwn(sid, w.(high := Some(n), held := w.held[n := env])) && Bounded(w.(high := Some(n), held := w.held[n := env]))
  {
  }

  function After(s: Session, r: Result<Bytes, SecureError>): Session {
    if r.Success? then Confirmed(s) else s
  }

  function Prefixed(shown: seq<Delivery>, d: Delivering): Delivering {
    d.(delivered := shown + d.delivered)
  }

  lemma BoundedWhenHeld(e: Endpoint)
    requires forall sid | sid in e.windows :: HoldsOwn(sid, e.windows[sid])
    ensures WindowsBounded(e)
  {
  }

  lemma HoldsBounded(sid: string, w: Window)
    requires HoldsOwn(sid, w)
    ensures Bounded(w)
  {
  }

  /** A held envelope carries its own session and number, and moving on keeps that of the rest. */
  lemma HeldNumber(sid: string, w: Window, n: u64)
    requires HoldsOwn(sid, w) && n in w.held
    ensures w.held[n].sid == Some(sid) && w.held[n].seq_ == Some(n) && n < U64_MAX
    ensures HoldsOwn(sid, w.(high := Some(n))) && Bounded(w.(high := Some(n)))
    ensures HoldsOwn(sid, w.(held := w.held - {n})) && Bounded(w.(held := w.held - {n}))
    ensures HoldsOwn(sid, w.(held := w.held - {n}, deliveryNext := n + 1)) && Bounded(w.(held := w.held - {n}, deliveryNext := n + 1))
  {
  }

  /** One turn of the first pass. */
  lemma AuthenticateStep(suite: Suite, local: string, s: Session, w: Window, view: ContractView)
    requires Bounded(w)
    ensures var next := Next(w);
            var all := Authenticate(suite, local, s, w, view);
            if next !in w.held then all == Authenticated(s, w, [], None)
            else
              var env, w' := w.held[next], w.(high := Some(next));
              var plain, binding := Opened(suite, local, s, env), Check(suite.sha256, view, env.contract);
              if plain.Failure? then all == Authenticated(s, w.(held := w.held - {next}), [plain.error], None)
              else if binding.Failure? && binding.error != ContractPending then
                all == Authenticated(Confirmed(s), w', [], Some(binding.error))
              else Bounded(w') && all == Authenticate(suite, local, Confirmed(s), w', view)
  {
    hide Check, Opened;
  }

  /** One turn of the second pass. */
  lemma DeliverOnce(suite: Suite, local: string, sid: string, s: Session, w: Window, view: ContractView)
    requires Bounded(w)
    ensures var next := w.deliveryNext;
            var all := Deliver(suite, local, sid, s, w, view);
            if !Accepted(w, next) || next !in w.held then all == Delivering(s, w, [], None)
            else
              var env := w.held[next];
              var plain, binding := Opened(suite, local, s, env), Check(suite.sha256, view, env.contract);
              if binding.Failure? then
                all == Delivering(s, w, [], if binding.error == ContractPending then None else Some(binding.error))
              else if plain.Failure? then all == Delivering(s, w, [], Some(plain.error))
              else
                var w' := w.(held := w.held - {next}, deliveryNext := next + 1);
                Bounded(w') && all == Prefixed([Delivery(sid, env.from, env.contract, next, plain.value)],
                                               Deliver(suite, local, sid, Confirmed(s), w', view))
  {
    hide Check, Opened;
  }

  lemma FreshHoldsNothing(sid: string)
    ensures HoldsOwn(sid, FRESH)
  {
  }

  lemma CounterHoldsOwn(sid: string, w: Window, n: u64)
    requires HoldsOwn(sid, w)
    ensures HoldsOwn(sid, w.(sendSeq := n))
  {
  }
}
