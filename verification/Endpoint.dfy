/**
 A guardian's transport state as a value, and what each transport operation does to
 it (`src/secure/transport.rs`). The `Transport` class refines these steps.
 */
module Endpoints {
  import opened Wrappers
  import opened Text
  import opened Secure
  import opened Crypto
  import opened Envelope
  import opened Sessions
  import opened Binding
  import opened Windows

  datatype Endpoint = Endpoint(local: string, identity: Bytes, active: map<string, Session>, windows: map<string, Window>)

  function WindowOf(e: Endpoint, sid: string): Window {
    if sid in e.windows then e.windows[sid] else FRESH
  }

  /** Windows of sessions that are gone are dropped first. */
  function Retained(e: Endpoint): Endpoint {
    e.(windows := map sid | sid in e.windows && sid in e.active :: e.windows[sid])
  }

  function Closed(e: Endpoint, sid: string): Endpoint {
    e.(active := e.active - {sid}, windows := e.windows - {sid})
  }

  function Put(e: Endpoint, sid: string, rest: Option<(Session, Window)>): Endpoint {
    match rest
    case None => Closed(e, sid)
    case Some(sw) => e.(active := e.active[sid := sw.0], windows := e.windows[sid := sw.1])
  }

  function SealStep(suite: Suite, e: Endpoint, sid: string, contract: string, payload: Bytes, view: ContractView)
    : (Endpoint, Result<SecureEnvelope, SecureError>)
  {
    var e1 := Retained(e);
    if sid !in e.active then (e1, Failure(SessionUnknown))
    else if Contradicts(suite.sha256, view, contract) then (Closed(e1, sid), Failure(Check(suite.sha256, view, contract).error))
    else
      var w := WindowOf(e1, sid);
      if w.sendSeq == U64_MAX then (Closed(e1, sid), Failure(SessionExhausted))
      else
        var r := SealMessage(suite, e.local, e.identity, sid, e.active[sid], w.sendSeq, contract, payload);
        (PutSealed(e1, sid, r.session, if r.envelope.Success? then w.(sendSeq := w.sendSeq + 1) else w), r.envelope)
  }

  /** The number a sealing step spends on a ciphertext. */
  function Spends(suite: Suite, e: Endpoint, sid: string, contract: string, payload: Bytes, view: ContractView): Option<u64> {
    if sid !in e.active || Contradicts(suite.sha256, view, contract) then None
    else
      var n := WindowOf(Retained(e), sid).sendSeq;
      if n < U64_MAX && Encrypts(suite, e.local, sid, e.active[sid], n, contract, payload) then Some(n) else None
  }

  /** The window entry stays behind even when the session was closed while sealing. */
  function PutSealed(e: Endpoint, sid: string, s: Option<Session>, w: Window): Endpoint {
    e.(active := if s.Some? then e.active[sid := s.value] else e.active - {sid}, windows := e.windows[sid := w])
  }

  /** Every window is within bounds, so its arithmetic is. */
  ghost predicate WindowsBounded(e: Endpoint) {
    forall sid | sid in e.windows :: Bounded(e.windows[sid])
  }

  function ReceiveStep(suite: Suite, e: Endpoint, env: SecureEnvelope, view: ContractView): (Endpoint, ReceiveReport)
    requires WindowsBounded(e)
  {
    var e1 := Retained(e);
    if !Valid(suite.rfc3339, env) || !env.kind.Msg? then (e1, Rejection(SchemaViolation))
    else
      var sid := env.sid.value;
      if sid !in e.active then (e1, Rejection(SessionUnknown))
      else
        match Verify(suite, e.local, e.active[sid], env)
        case Failure(error) => (e1, Rejection(error))
        case Success(_) =>
          var o := Arrive(suite, e.local, sid, e.active[sid], WindowOf(e1, sid), env, view);
          (Put(e1, sid, o.rest), o.report)
  }

  function ObserveStep(suite: Suite, e: Endpoint, sid: string, view: ContractView): (Endpoint, ReceiveReport)
    requires WindowsBounded(e)
  {
    if sid !in e.active then (e.(windows := e.windows - {sid}), Rejection(SessionUnknown))
    else if sid !in e.windows then (e, EMPTY)
    else
      var o := Drain(suite, e.local, sid, e.active[sid], e.windows[sid], view);
      (Put(e, sid, o.rest), o.report)
  }

  // ---------------------------------------------------------------- at rest

  /** Every window is at rest, left-over ones included. */
  ghost predicate AllAtRest(e: Endpoint) {
    forall sid | sid in e.windows :: AtRest(e.windows[sid])
  }

  /** Nothing about `sid` is different. */
  ghost predicate Untouched(e: Endpoint, e': Endpoint, sid: string) {
    (sid in e'.active <==> sid in e.active)
    && (sid in e.active ==> e'.active[sid] == e.active[sid] && WindowOf(e', sid) == WindowOf(e, sid))
  }

  lemma RestBounds(e: Endpoint)
    requires AllAtRest(e)
    ensures WindowsBounded(e)
  {
  }

  lemma WindowAtRest(e: Endpoint, sid: string)
    requires AllAtRest(e)
    ensures AtRest(WindowOf(e, sid)) && (sid in e.active ==> WindowOf(Retained(e), sid) == WindowOf(e, sid))
  {
  }

  /** `e'` is `e` after a step on session `sid`, or on none. */
  ghost predicate StepOn(e: Endpoint, e': Endpoint, sid: Option<string>) {
    && AllAtRest(e') && e'.local == e.local && e'.identity == e.identity
    && e'.active.Keys <= e.active.Keys && e'.windows.Keys <= e.windows.Keys + e.active.Keys
    && forall other | sid != Some(other) :: Untouched(e, e', other)
  }

  lemma RetainedStep(e: Endpoint)
    requires AllAtRest(e)
    ensures StepOn(e, Retained(e), None)
  {
  }

  lemma StepOnNone(e: Endpoint, e': Endpoint, sid: Option<string>)
    requires StepOn(e, e', None)
    ensures StepOn(e, e', sid)
    ensures forall other | other in e'.active :: KeepsSending(e, e', other)
  {
    forall other | other in e'.active ensures KeepsSending(e, e', other) {
      assert other in e.active;
      assert Untouched(e, e', other);
    }
  }

  lemma ClosedStep(e: Endpoint, e1: Endpoint, sid: string)
    requires StepOn(e, e1, None)
    ensures StepOn(e, Closed(e1, sid), Some(sid)) && sid !in Closed(e1, sid).active
  {
  }

  lemma PutStep(e: Endpoint, e1: Endpoint, sid: string, s: Session, w: Window)
    requires StepOn(e, e1, None) && sid in e.active && AtRest(w)
    ensures var e' := Put(e1, sid, Some((s, w)));
            StepOn(e, e', Some(sid)) && sid in e'.active && e'.active[sid] == s && WindowOf(e', sid) == w
  {
    hide AtRest;
  }

  /** Of a session that survives, nothing changes but the receiving half. */
  ghost predicate KeepsSending(e: Endpoint, e': Endpoint, sid: string) {
    sid in e.active && sid in e'.active && SameSession(e.active[sid], e'.active[sid])
    && WindowOf(e', sid).sendSeq == WindowOf(e, sid).sendSeq
  }

  /** Of a session that survives, nothing changes but the two send counters. */
  ghost predicate KeepsReceiving(e: Endpoint, e': Endpoint, sid: string) {
    sid in e.active && sid in e'.active
    && e'.active[sid] == e.active[sid].(sendSeq := e'.active[sid].sendSeq)
    && WindowOf(e', sid) == WindowOf(e, sid).(sendSeq := WindowOf(e', sid).sendSeq)
  }

  /** Sealing leaves the receiving side and every other session alone. */
  lemma SealFrame(suite: Suite, e: Endpoint, sid: string, contract: string, payload: Bytes, view: ContractView)
    requires AllAtRest(e)
    ensures var e' := SealStep(suite, e, sid, contract, payload, view).0;
            StepOn(e, e', Some(sid)) && (sid in e'.active ==> KeepsReceiving(e, e', sid))
  {
    hide Check, Contradicts, SealMessage, StepOn, AllAtRest, AtRest, Closed, Retained, PutSealed, KeepsReceiving, WindowOf;
    var e1 := Retained(e);
    RetainedStep(e);
    StepOnNone(e, e1, Some(sid));
    ClosedStep(e, e1, sid);
    RetainedFields(e);
    if sid in e.active {
      SealLive(suite, e, sid, contract, payload);
    }
  }

  lemma SealLive(suite: Suite, e: Endpoint, sid: string, contract: string, payload: Bytes)
    requires AllAtRest(e) && sid in e.active
    ensures var w := WindowOf(Retained(e), sid);
            var r := SealMessage(suite, e.local, e.identity, sid, e.active[sid], w.sendSeq, contract, payload);
            w.sendSeq < U64_MAX ==>
              var e' := PutSealed(Retained(e), sid, r.session, if r.envelope.Success? then w.(sendSeq := w.sendSeq + 1) else w);
              StepOn(e, e', Some(sid)) && (sid in e'.active ==> KeepsReceiving(e, e', sid))
  {
    hide SealMessage, StepOn, AllAtRest, AtRest, PutSealed, KeepsReceiving, WindowOf, Retained;
    RetainedStep(e);
    RetainedFields(e);
    WindowAtRest(e, sid);
    var w := WindowOf(Retained(e), sid);
    if w.sendSeq < U64_MAX {
      var r := SealMessage(suite, e.local, e.identity, sid, e.active[sid], w.sendSeq, contract, payload);
      SealMessageCarries(suite, e.local, e.identity, sid, e.active[sid], w.sendSeq, contract, payload);
      SealedPut(e, Retained(e), sid, r.session, if r.envelope.Success? then w.sendSeq + 1 else w.sendSeq);
      assert w.(sendSeq := w.sendSeq) == w;
    }
  }

  lemma RetainedFields(e: Endpoint)
    ensures Retained(e).active == e.active && Retained(e).local == e.local
  {
  }

  /** The maps after a seal, whether or not it kept the session. */
  lemma SealedPut(e: Endpoint, e1: Endpoint, sid: string, s: Option<Session>, n: u64)
    requires StepOn(e, e1, None) && sid in e.active && e1.active == e.active
    requires AtRest(WindowOf(e, sid)) && WindowOf(e1, sid) == WindowOf(e, sid)
    requires s.Some? ==> s.value == e.active[sid].(sendSeq := s.value.sendSeq)
    ensures var e' := PutSealed(e1, sid, s, WindowOf(e, sid).(sendSeq := n));
            StepOn(e, e', Some(sid)) && (sid in e'.active ==> KeepsReceiving(e, e', sid))
  {
    hide AtRest, StepOn;
    var w := WindowOf(e, sid).(sendSeq := n);
    CounterAtRest(WindowOf(e, sid), n);
    if s.Some? {
      PutStep(e, e1, sid, s.value, w);
    } else {
      DropStep(e, e1, sid, w);
    }
  }

  /** The send counter has no part in being at rest. */
  lemma CounterAtRest(w: Window, n: u64)
    requires AtRest(w)
    ensures AtRest(w.(sendSeq := n))
  {
    assert Next(w.(sendSeq := n)) == Next(w);
  }

  lemma DropStep(e: Endpoint, e1: Endpoint, sid: string, w: Window)
    requires StepOn(e, e1, None) && AtRest(w)
    ensures sid in e.active ==> StepOn(e, PutSealed(e1, sid, None, w), Some(sid))
    ensures sid !in PutSealed(e1, sid, None, w).active
  {
    hide AtRest;
  }

  lemma ValidMessage(suite: Suite, env: SecureEnvelope)
    requires Valid(suite.rfc3339, env) && env.kind.Msg?
    ensures env.sid.Some? && env.seq_.Some? && env.sig.Some? && MessageInput(suite.rfc3339, env).Success?
  {
    HeaderWellFormed(env);
  }

  /** The outcome of an arrival or a drain, put back into the maps. */
  lemma OutcomeStep(e: Endpoint, e1: Endpoint, sid: string, rest: Option<(Session, Window)>)
    requires StepOn(e, e1, None) && sid in e.active
    requires rest.Some? ==> AtRest(rest.value.1) && SameSession(e.active[sid], rest.value.0)
                            && rest.value.1.sendSeq == WindowOf(e, sid).sendSeq
    ensures var e' := Put(e1, sid, rest);
            StepOn(e, e', Some(sid)) && (sid in e'.active ==> KeepsSending(e, e', sid))
            && (sid in e'.active <==> rest.Some?)
            && (rest.Some? ==> e'.active[sid] == rest.value.0 && WindowOf(e', sid) == rest.value.1)
  {
    if rest.Some? {
      PutStep(e, e1, sid, rest.value.0, rest.value.1);
    } else {
      ClosedStep(e, e1, sid);
    }
  }

  /** Receiving touches one session, keeps its sending half, and keeps every window at rest. */
  lemma ReceiveFrame(suite: Suite, e: Endpoint, env: SecureEnvelope, view: ContractView)
    requires AllAtRest(e)
    ensures WindowsBounded(e)
    ensures var e' := ReceiveStep(suite, e, env, view).0;
            StepOn(e, e', env.sid) && forall sid | Some(sid) == env.sid && sid in e'.active :: KeepsSending(e, e', sid)
  {
    hide Check, Contradicts, Verify, Arrive, Valid, StepOn, AtRest, Retained, Put;
    RestBounds(e);
    var e1 := Retained(e);
    RetainedStep(e);
    StepOnNone(e, e1, env.sid);
    if Valid(suite.rfc3339, env) && env.kind.Msg? {
      ValidMessage(suite, env);
      var sid := env.sid.value;
      if sid in e.active && Verify(suite, e.local, e.active[sid], env).Success? {
        WindowAtRest(e, sid);
        var w := WindowOf(e1, sid);
        ArriveRests(suite, e.local, sid, e.active[sid], w, env, view);
        OutcomeStep(e, e1, sid, Arrive(suite, e.local, sid, e.active[sid], w, env, view).rest);
      }
    }
  }

  /** A message that verifies is handed to its session's window. */
  lemma ReceiveVerified(suite: Suite, e: Endpoint, env: SecureEnvelope, view: ContractView, sid: string)
    requires WindowsBounded(e) && AllAtRest(e)
    requires sid in e.active && env.sid == Some(sid) && Valid(suite.rfc3339, env) && env.kind.Msg?
    requires Verify(suite, e.local, e.active[sid], env).Success?
    ensures Bounded(WindowOf(e, sid)) && env.seq_.Some?
    ensures var o := Arrive(suite, e.local, sid, e.active[sid], WindowOf(e, sid), env, view);
            ReceiveStep(suite, e, env, view) == (Put(Retained(e), sid, o.rest), o.report)
  {
    hide Check, Contradicts, Verify, Arrive, Valid, AtRest, Put, Retained;
    ValidMessage(suite, env);
    WindowAtRest(e, sid);
    RestIsBounded(WindowOf(e, sid));
  }

  lemma ObserveFrame(suite: Suite, e: Endpoint, sid: string, view: ContractView)
    requires AllAtRest(e)
    ensures WindowsBounded(e)
    ensures var e' := ObserveStep(suite, e, sid, view).0;
            StepOn(e, e', Some(sid)) && (sid in e'.active ==> KeepsSending(e, e', sid))
  {
    hide Check, Contradicts, Drain, AtRest, Put;
    RestBounds(e);
    if sid in e.active && sid in e.windows {
      RestOrdered(e.windows[sid]);
      DrainRests(suite, e.local, sid, e.active[sid], e.windows[sid], view);
      OutcomeStep(e, e, sid, Drain(suite, e.local, sid, e.active[sid], e.windows[sid], view).rest);
    }
  }

  lemma RestOrdered(w: Window)
    requires AtRest(w)
    ensures Ordered(w)
  {
  }
}
