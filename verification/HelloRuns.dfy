/**
 How long a guardian withholds a second answer to the same hello (`src/secure/session.rs`),
 over any run of what its session table is asked to do in between.
 */
module HelloRuns {
  import opened Wrappers
  import opened Text
  import opened Secure
  import opened Crypto
  import opened Envelope
  import opened Handshakes
  import opened HelloHistory

  /** What a session table is asked to do. The last kind is everything that is not about a hello that came in. */
  datatype Request =
    | Answering(session: string, hello: SecureEnvelope, pin: Bytes)
    | AnsweringOnce(session: string, hello: SecureEnvelope, pin: Bytes)
    | Initiating | Completing | Sealing | Opening | Closing | ClosingContext

  /** The key a request leaves in the history, whether or not an answer comes of it. */
  function KeyOf(suite: Suite, local: string, request: Request): Option<Key> {
    match request
    case Answering(session, hello, pin) => HelloKey(suite, local, session, hello, pin)
    case AnsweringOnce(session, hello, pin) => HelloKey(suite, local, session, hello, pin)
    case _ => None
  }

  function HelloKey(suite: Suite, local: string, session: string, hello: SecureEnvelope, pin: Bytes): Option<Key> {
    match Authentic(suite, local, session, hello, pin)
    case Failure(_) => None
    case Success(sig) => Some((session, sig))
  }

  function HistoryAfter(suite: Suite, local: string, history: seq<Key>, request: Request): seq<Key> {
    match KeyOf(suite, local, request)
    case None => history
    case Some(key) => Remember(history, key)
  }

  /** A hello that gets no answer because it had one before. */
  predicate Withheld(suite: Suite, local: string, history: seq<Key>, session: string, hello: SecureEnvelope, pin: Bytes) {
    HelloKey(suite, local, session, hello, pin).Some? && HelloKey(suite, local, session, hello, pin).value in history
  }

  function HistoryRun(suite: Suite, local: string, history: seq<Key>, requests: seq<Request>): seq<Key> {
    if requests == [] then history
    else HistoryAfter(suite, local, HistoryRun(suite, local, history, requests[..|requests| - 1]), requests[|requests| - 1])
  }

  /** The keys a run brings, in order. */
  function KeysOf(suite: Suite, local: string, requests: seq<Request>): seq<Key> {
    if requests == [] then []
    else
      var before := KeysOf(suite, local, requests[..|requests| - 1]);
      match KeyOf(suite, local, requests[|requests| - 1])
      case None => before
      case Some(key) => before + [key]
  }

  lemma {:induction false} RunRemembers(suite: Suite, local: string, history: seq<Key>, requests: seq<Request>)
    ensures HistoryRun(suite, local, history, requests) == RememberAll(history, KeysOf(suite, local, requests))
  {
    hide HelloKey;
    if requests != [] {
      var before := requests[..|requests| - 1];
      RunRemembers(suite, local, history, before);
      var keys, key := KeysOf(suite, local, before), KeyOf(suite, local, requests[|requests| - 1]);
      if key.Some? {
        assert (keys + [key.value])[..|keys|] == keys;
      }
    }
  }

  /**
   No second answer. Once an authentic hello has been taken up, and whatever came of it, asking
   once more gets nothing for as long as fewer than 1024 further keys have been new, and not at
   the 1024th any more: no handshake evicted, session lost or context closed in between, no
   hello answered again or refused, makes any difference.
   */
  lemma NoSecondAnswer(
      suite: Suite, local: string, history: seq<Key>, session: string, hello: SecureEnvelope, pin: Bytes, once: bool,
      requests: seq<Request>)
    requires HistoryOk(history) && HelloKey(suite, local, session, hello, pin).Some?
    requires !Withheld(suite, local, history, session, hello, pin)
    ensures var first := if once then AnsweringOnce(session, hello, pin) else Answering(session, hello, pin);
            var taken := HistoryAfter(suite, local, history, first);
            var newKeys := |New(taken, KeysOf(suite, local, requests))|;
            && (newKeys < 1024 ==>
                  Withheld(suite, local, HistoryRun(suite, local, taken, requests), session, hello, pin))
            && (newKeys == 1024 ==>
                  !Withheld(suite, local, HistoryRun(suite, local, taken, requests), session, hello, pin))
  {
    hide HelloKey;
    var key := HelloKey(suite, local, session, hello, pin).value;
    var taken := Remember(history, key);
    RunRemembers(suite, local, taken, requests);
    if |New(taken, KeysOf(suite, local, requests))| <= 1024 {
      SecondAnswerWithheld(history, key, KeysOf(suite, local, requests));
    }
  }

  /** A request that takes up a hello with this signature, in this context. */
  predicate TakesUp(suite: Suite, local: string, request: Request, session: string, sig: string) {
    match request
    case Answering(context, hello, pin) =>
      context == session && hello.sig == Some(sig) && Authentic(suite, local, context, hello, pin).Success?
    case AnsweringOnce(context, hello, pin) =>
      context == session && hello.sig == Some(sig) && Authentic(suite, local, context, hello, pin).Success?
    case _ => false
  }

  lemma {:induction false} RememberedWasTaken(suite: Suite, local: string, requests: seq<Request>, key: Key)
    requires key in HistoryRun(suite, local, [], requests)
    ensures exists request :: request in requests && TakesUp(suite, local, request, key.0, key.1)
  {
    hide Authentic;
    if requests != [] {
      var before, last := requests[..|requests| - 1], requests[|requests| - 1];
      if key in HistoryRun(suite, local, [], before) {
        RememberedWasTaken(suite, local, before, key);
      } else {
        KeyTaken(suite, local, last);
        assert KeyOf(suite, local, last) == Some(key);
      }
    }
  }

  lemma KeyTaken(suite: Suite, local: string, request: Request)
    ensures KeyOf(suite, local, request).Some? ==>
              TakesUp(suite, local, request, KeyOf(suite, local, request).value.0, KeyOf(suite, local, request).value.1)
  {
    hide HelloInput, Valid;
  }

  /** A hello is withheld only when a hello with its signature was taken up before in this very context. */
  lemma WithheldWasTaken(suite: Suite, local: string, requests: seq<Request>, session: string, hello: SecureEnvelope, pin: Bytes)
    requires Withheld(suite, local, HistoryRun(suite, local, [], requests), session, hello, pin)
    ensures hello.sig.Some? && exists request :: request in requests && TakesUp(suite, local, request, session, hello.sig.value)
  {
    hide HelloInput, Valid, TakesUp;
    RememberedWasTaken(suite, local, requests, HelloKey(suite, local, session, hello, pin).value);
  }

  // ------------------------------------------------- taken up, not answered

  /** A hello whose answer fails, for want of a random number, is withheld from then on all the same. */
  lemma UnansweredIsWithheld(
      suite: Suite, local: string, identity: Bytes, session: string, hello: SecureEnvelope, pin: Bytes, nonce: Option<Bytes>)
    requires HelloKey(suite, local, session, hello, pin).Some?
    ensures Answer(suite, local, identity, session, hello, pin, None, nonce).Failure?
    ensures !Withheld(suite, local, [], session, hello, pin)
    ensures Withheld(suite, local, HistoryAfter(suite, local, [], AnsweringOnce(session, hello, pin)), session, hello, pin)
  {
    hide HelloKey;
    RememberOk([], HelloKey(suite, local, session, hello, pin).value);
  }

  /** Primitives that accept every signature. */
  function Trusting(): Suite {
    Suite((s: string) => s, (s: string) => false, (seed: Bytes, input: Bytes) => Zeros(128),
          (key: Bytes, input: Bytes, sig: string) => true,
          (key: Bytes, nonce: Bytes, aad: Bytes, plain: Bytes) => None, (key: Bytes, nonce: Bytes, aad: Bytes, ct: Bytes) => None,
          (scalar: Bytes) => scalar,
          (a: Bytes, b: Bytes, ni: Bytes, nr: Bytes, context: string, i: string, r: string) => Failure(GuardianUnavailable))
  }

  function Zeros(n: nat): (s: string)
    ensures |s| == n && AllHex(s)
  {
    if n == 0 then "" else ['0'] + Zeros(n - 1)
  }

  function LetterUrn(letter: char): string {
    URN_PREFIX + [letter]
  }

  function ExampleHello(): SecureEnvelope {
    SecureEnvelope(1, Hello, LetterUrn('a'), LetterUrn('b'), "", None, None, Some(Zeros(64)), Some(Zeros(64)), Some(Zeros(128)), None, None)
  }

  lemma ExampleAuthentic(pin: Bytes)
    ensures HelloKey(Trusting(), LetterUrn('b'), "s-1", ExampleHello(), pin) == Some(("s-1", Zeros(128)))
  {
    hide Zeros;
    assert LetterUrn('a')[|URN_PREFIX|] == 'a' && LetterUrn('b')[|URN_PREFIX|] == 'b';
    assert Urn(LetterUrn('a')) && Urn(LetterUrn('b'));
  }

  /** There is such a hello: authentic, its answer refused, never answered before, and withheld when it is asked for again. */
  lemma UnansweredHello(identity: Bytes, pin: Bytes, nonce: Option<Bytes>)
    ensures var suite, local, session, hello := Trusting(), LetterUrn('b'), "s-1", ExampleHello();
            && Authentic(suite, local, session, hello, pin).Success?
            && Answer(suite, local, identity, session, hello, pin, None, nonce).Failure?
            && !Withheld(suite, local, [], session, hello, pin)
            && Withheld(suite, local, HistoryAfter(suite, local, [], AnsweringOnce(session, hello, pin)), session, hello, pin)
  {
    hide Trusting, Zeros, Answer;
    ExampleAuthentic(pin);
    UnansweredIsWithheld(Trusting(), LetterUrn('b'), identity, "s-1", ExampleHello(), pin, nonce);
  }
}
