/**
 What a drain does with what it cannot show (`src/secure/transport.rs`): messages that do not
 open, and messages whose binding is ruled out.
 */
module DrainLaws {
  import opened Wrappers
  import opened Secure
  import opened Crypto
  import opened Sessions
  import opened Binding
  import opened Windows
  import opened WindowLaws

  /** Held, opens, and its binding is not ruled out. */
  ghost predicate Passes(suite: Suite, local: string, s: Session, w: Window, view: ContractView, n: u64) {
    n in w.held && Opened(suite, local, s, w.held[n]).Success? && Check(suite.sha256, view, w.held[n].contract) != Failure(ContractMismatch)
  }

  /** The mark gets as far as `n`: it is the first from the next number on that may not pass. */
  ghost predicate Reaches(suite: Suite, local: string, s: Session, w: Window, view: ContractView, n: u64)
    requires Bounded(w)
  {
    Next(w) <= n && forall k: u64 | Next(w) <= k < n :: Passes(suite, local, s, w, view, k)
  }

  lemma ReachesOn(suite: Suite, local: string, s: Session, w: Window, view: ContractView, n: u64)
    requires Bounded(w) && Reaches(suite, local, s, w, view, n) && Next(w) < n
    ensures Passes(suite, local, s, w, view, Next(w)) && Bounded(w.(high := Some(Next(w))))
    ensures Reaches(suite, local, Confirmed(s), w.(high := Some(Next(w))), view, n)
  {
    hide Opened, Check;
    var w' := w.(high := Some(Next(w)));
    forall k: u64 | Next(w') <= k < n ensures Passes(suite, local, Confirmed(s), w', view, k) {
      assert Passes(suite, local, s, w, view, k);
      OpenedByState(suite, local, s, Confirmed(s), w.held[k]);
    }
  }

  /** The first pass stops where the mark gets to, and there only. */
  lemma {:induction false} AuthenticatesTo(suite: Suite, local: string, s: Session, w: Window, view: ContractView, n: u64)
    requires Bounded(w) && Reaches(suite, local, s, w, view, n)
    ensures var a, t := Authenticate(suite, local, s, w, view), if n == Next(w) then w else w.(high := Some(n - 1));
            && (n !in w.held ==> a == Authenticated(a.session, t, [], None) && (n == Next(w) ==> a.session == s) && (n > Next(w) ==> a.session == Confirmed(s)))
            && (n in w.held && Opened(suite, local, s, w.held[n]).Failure? ==>
                  a == Authenticated(a.session, t.(held := w.held - {n}), [Opened(suite, local, s, w.held[n]).error], None)
                  && (n == Next(w) ==> a.session == s) && (n > Next(w) ==> a.session == Confirmed(s)))
            && (n in w.held && Opened(suite, local, s, w.held[n]).Success? && Check(suite.sha256, view, w.held[n].contract) == Failure(ContractMismatch) ==>
                  a.rejected == [] && a.abort == Some(ContractMismatch))
    decreases U64_MAX - Next(w)
  {
    hide Opened, Check;
    var next := Next(w);
    if next < n {
      ReachesOn(suite, local, s, w, view, n);
      OnlyTwoErrors(suite.sha256, view, w.held[next].contract);
      AuthenticatesTo(suite, local, Confirmed(s), w.(high := Some(next)), view, n);
      if n in w.held {
        OpenedByState(suite, local, s, Confirmed(s), w.held[n]);
      }
    } else if n in w.held {
      OnlyTwoErrors(suite.sha256, view, w.held[n].contract);
    }
  }

  /**
   A message the mark gets to and that does not open is dropped and reported; everything else
   goes as if it had never come.
   */
  lemma UnopenableDropped(suite: Suite, local: string, sid: string, s: Session, w: Window, view: ContractView, n: u64)
    requires Ordered(w) && Bounded(w) && Reaches(suite, local, s, w, view, n) && n in w.held
    requires Opened(suite, local, s, w.held[n]).Failure?
    ensures var w' := w.(held := w.held - {n});
            && Bounded(w')
            && var o := Drain(suite, local, sid, s, w', view);
               Drain(suite, local, sid, s, w, view)
               == o.(report := o.report.(rejected := [Opened(suite, local, s, w.held[n]).error]))
  {
    hide Opened, Check, Contradicts, Authenticate, Deliver, Contradicted, Sorted, HeldReport;
    var w' := w.(held := w.held - {n});
    AuthenticatesTo(suite, local, s, w, view, n);
    WithoutReaches(suite, local, s, w, view, n);
    AuthenticatesTo(suite, local, s, w', view, n);
    AuthenticateBounded(suite, local, s, w, view);
  }

  lemma WithoutReaches(suite: Suite, local: string, s: Session, w: Window, view: ContractView, n: u64)
    requires Bounded(w) && Reaches(suite, local, s, w, view, n) && n in w.held
    ensures var w' := w.(held := w.held - {n}); Bounded(w') && Next(w') == Next(w) && Reaches(suite, local, s, w', view, n)
  {
    hide Opened, Check;
    var w' := w.(held := w.held - {n});
    forall k: u64 | Next(w') <= k < n ensures Passes(suite, local, s, w', view, k) {
      assert Passes(suite, local, s, w, view, k);
    }
  }

  /** A message the mark gets to, that opens and whose binding is ruled out ends the session, and nothing is shown. */
  lemma RuledOutEnds(suite: Suite, local: string, sid: string, s: Session, w: Window, view: ContractView, n: u64)
    requires Bounded(w) && Reaches(suite, local, s, w, view, n) && n in w.held
    requires Opened(suite, local, s, w.held[n]).Success? && Check(suite.sha256, view, w.held[n].contract) == Failure(ContractMismatch)
    ensures Drain(suite, local, sid, s, w, view) == Outcome(None, ReceiveReport([], [], [], Some(ContractMismatch)))
  {
    hide Opened, Check, Contradicts, Authenticate;
    AuthenticatesTo(suite, local, s, w, view, n);
  }

  // -------------------------------------------- among what was accepted before

  /** Nothing but a ruled out binding can stop a delivery of messages that open. */
  lemma {:induction false} DeliverStops(
      suite: Suite, local: string, sid: string, s: Session, w: Window, view: ContractView, n: u64)
    requires Bounded(w) && n in w.held && Accepted(w, n) && Check(suite.sha256, view, w.held[n].contract) == Failure(ContractMismatch)
    requires w.deliveryNext <= n
    requires forall k | k in w.held && Accepted(w, k) :: Opened(suite, local, s, w.held[k]).Success?
    ensures var d := Deliver(suite, local, sid, s, w, view);
            if d.abort.Some? then d.abort.value == ContractMismatch
            else n in d.window.held && d.window.held[n] == w.held[n] && Accepted(d.window, n)
    decreases U64_MAX - w.deliveryNext
  {
    hide Opened, Check;
    if w.deliveryNext in w.held && Accepted(w, w.deliveryNext) {
      OnlyTwoErrors(suite.sha256, view, w.held[w.deliveryNext].contract);
      if CanDeliver(suite, local, s, w, view) {
        var w' := Shifted(w);
        forall k | k in w'.held && Accepted(w', k) ensures Opened(suite, local, Confirmed(s), w'.held[k]).Success? {
          OpenedByState(suite, local, s, Confirmed(s), w.held[k]);
        }
        DeliverStops(suite, local, sid, Confirmed(s), w', view, n);
      }
    }
  }

  /** The first pass leaves what was accepted accepted, and adds only what opens. */
  lemma {:induction false} AcceptedStay(suite: Suite, local: string, s: Session, w: Window, view: ContractView)
    requires Ordered(w) && forall k | k in w.held && Accepted(w, k) :: Opened(suite, local, s, w.held[k]).Success?
    ensures var a := Authenticate(suite, local, s, w, view);
            && (a.abort.Some? ==> a.abort.value == ContractMismatch) && SameSession(s, a.session)
            && (forall k | k in w.held && Accepted(w, k) :: k in a.window.held && a.window.held[k] == w.held[k] && Accepted(a.window, k))
            && (forall k | k in a.window.held && Accepted(a.window, k) :: Opened(suite, local, a.session, a.window.held[k]).Success?)
            && a.window.deliveryNext == w.deliveryNext
    decreases U64_MAX - Next(w)
  {
    hide Opened, Check;
    var next := Next(w);
    if next in w.held && Opened(suite, local, s, w.held[next]).Success? {
      OnlyTwoErrors(suite.sha256, view, w.held[next].contract);
      var w' := w.(high := Some(next));
      forall k | k in w'.held && Accepted(w', k) ensures Opened(suite, local, Confirmed(s), w'.held[k]).Success? {
        OpenedByState(suite, local, s, Confirmed(s), w.held[k]);
      }
      AcceptedStay(suite, local, Confirmed(s), w', view);
    }
  }

  /**
   An accepted message that waits for its contract and whose binding comes to be ruled out ends
   the session, wherever it stands in the queue, and nothing is shown.
   */
  lemma WaitingRuledOut(suite: Suite, local: string, sid: string, s: Session, w: Window, view: ContractView, n: u64)
    requires Ordered(w) && n in w.held && n < Next(w) && Check(suite.sha256, view, w.held[n].contract) == Failure(ContractMismatch)
    requires forall k | k in w.held && k < Next(w) :: Opened(suite, local, s, w.held[k]).Success?
    ensures Bounded(w)
    ensures var o := Drain(suite, local, sid, s, w, view);
            o.rest.None? && o.report.delivered == [] && o.report.held == [] && o.report.aborted == Some(ContractMismatch)
  {
    hide Opened, Check, Contradicts, Authenticate, Deliver, Contradicted, Sorted, HeldReport;
    AcceptedStay(suite, local, s, w, view);
    AuthenticateBounded(suite, local, s, w, view);
    var a := Authenticate(suite, local, s, w, view);
    if a.abort.None? {
      DeliverStops(suite, local, sid, a.session, a.window, view, n);
      var d := Deliver(suite, local, sid, a.session, a.window, view);
      if d.abort.None? {
        FirstRuledOut(suite, d.window, view, Sorted(d.window.held.Keys), n);
      }
    }
  }

  lemma {:induction false} FirstRuledOut(suite: Suite, w: Window, view: ContractView, ns: seq<u64>, n: u64)
    requires (forall k | k in ns :: k in w.held) && n in ns && Accepted(w, n)
    requires Check(suite.sha256, view, w.held[n].contract) == Failure(ContractMismatch)
    ensures Contradicted(suite, w, view, ns) == Some(ContractMismatch)
  {
    hide Check;
    OnlyTwoErrors(suite.sha256, view, w.held[ns[0]].contract);
    if !(Accepted(w, ns[0]) && Contradicts(suite.sha256, view, w.held[ns[0]].contract)) {
      OnlyTwoErrors(suite.sha256, view, w.held[n].contract);
      FirstRuledOut(suite, w, view, ns[1..], n);
    }
  }

  /** Everything from the next one to be shown up to `n` can be shown. */
  ghost predicate ShownTo(suite: Suite, local: string, s: Session, w: Window, view: ContractView, n: u64)
    requires Bounded(w)
  {
    w.deliveryNext <= n < Next(w)
    && forall k: u64 | w.deliveryNext <= k < n ::
         k in w.held && Opened(suite, local, s, w.held[k]).Success? && Check(suite.sha256, view, w.held[k].contract).Success?
  }

  lemma {:induction false} DeliverFails(suite: Suite, local: string, sid: string, s: Session, w: Window, view: ContractView, n: u64)
    requires Bounded(w) && ShownTo(suite, local, s, w, view, n) && n in w.held
    requires Opened(suite, local, s, w.held[n]).Failure? && Check(suite.sha256, view, w.held[n].contract).Success?
    ensures Deliver(suite, local, sid, s, w, view).abort == Some(Opened(suite, local, s, w.held[n]).error)
    decreases U64_MAX - w.deliveryNext
  {
    hide Opened, Check;
    if w.deliveryNext < n {
      var w' := Shifted(w);
      forall k: u64 | w'.deliveryNext <= k < n
        ensures k in w'.held && Opened(suite, local, Confirmed(s), w'.held[k]).Success? && Check(suite.sha256, view, w'.held[k].contract).Success?
      {
        OpenedByState(suite, local, s, Confirmed(s), w.held[k]);
      }
      OpenedByState(suite, local, s, Confirmed(s), w.held[n]);
      DeliverFails(suite, local, sid, Confirmed(s), w', view, n);
    }
  }

  /** A message whose turn it is to be shown and that no longer opens ends the session with its error. */
  lemma NoLongerOpens(suite: Suite, local: string, sid: string, s: Session, w: Window, view: ContractView, n: u64)
    requires AtRest(w) && Bounded(w) && ShownTo(suite, local, s, w, view, n) && n in w.held
    requires Opened(suite, local, s, w.held[n]).Failure? && Check(suite.sha256, view, w.held[n].contract).Success?
    ensures Drain(suite, local, sid, s, w, view)
            == Outcome(None, ReceiveReport([], [], [], Some(Opened(suite, local, s, w.held[n]).error)))
  {
    hide Opened, Check, Deliver;
    DeliverFails(suite, local, sid, s, w, view, n);
  }

  // ---------------------------------------------------------- what is reported

  /** A drain that does not end the session lists what is still held in ascending order, each with what it waits for. */
  lemma HeldListed(suite: Suite, local: string, sid: string, s: Session, w: Window, view: ContractView)
    requires Bounded(w) && Drain(suite, local, sid, s, w, view).rest.Some?
    ensures var o := Drain(suite, local, sid, s, w, view);
            var t, held := o.rest.value.1, o.report.held;
            && Bounded(t) && |held| == |t.held|
            && (forall i, j | 0 <= i < j < |held| :: held[i].seq_ < held[j].seq_)
            && forall i | 0 <= i < |held| ::
                 held[i].seq_ in t.held && held[i] == Held(sid, held[i].seq_, if held[i].seq_ < Next(t) then "ContractPending" else "SequencePending")
  {
    hide Opened, Check, Contradicts, Authenticate, Deliver, Contradicted, Bounded, HeldReport, Sorted;
    AuthenticateBounded(suite, local, s, w, view);
    var a := Authenticate(suite, local, s, w, view);
    DeliverBounded(suite, local, sid, a.session, a.window, view);
    InOrder(sid, Deliver(suite, local, sid, a.session, a.window, view).window);
  }

  lemma InOrder(sid: string, t: Window)
    requires Bounded(t)
    ensures var held := HeldReport(sid, t, Sorted(t.held.Keys));
            && |held| == |t.held|
            && (forall i, j | 0 <= i < j < |held| :: held[i].seq_ < held[j].seq_)
            && forall i | 0 <= i < |held| ::
                 held[i].seq_ in t.held && held[i] == Held(sid, held[i].seq_, if held[i].seq_ < Next(t) then "ContractPending" else "SequencePending")
  {
    hide HeldReport, Sorted;
    var ns := Sorted(t.held.Keys);
    var held := HeldReport(sid, t, ns);
    assert |t.held| == |t.held.Keys|;
    forall i | 0 <= i < |held|
      ensures held[i].seq_ == ns[i] && ns[i] in t.held
      ensures held[i] == Held(sid, ns[i], if ns[i] < Next(t) then "ContractPending" else "SequencePending")
    {
      assert ns[i] in ns;
      assert held[i] == HeldEntry(sid, t, ns[i]);
    }
  }

  lemma {:induction false} DeliverBounded(suite: Suite, local: string, sid: string, s: Session, w: Window, view: ContractView)
    requires Bounded(w)
    ensures Bounded(Deliver(suite, local, sid, s, w, view).window)
    decreases U64_MAX - w.deliveryNext
  {
    hide Opened, Check;
    if CanDeliver(suite, local, s, w, view) {
      DeliverBounded(suite, local, sid, Confirmed(s), Shifted(w), view);
    }
  }
}
