# HACP, verified

A Dafny model of the protocol core of HACP and proofs about it: two guardians that
exchange sealed, numbered messages over an edge they do not trust; the bilateral contracts
whose revisions those messages are bound to; the ledger of capability grants and the chart
of supervisors that authority comes from; the canonical form every digest and signature is
taken over; the graphs of provenance, attestation and build order; and the bounded queues
that stand for long histories.

`dafny verify dfyconfig.toml` checks everything.

## How it is built

What the program changes in place is a class here, with the same fields and with loops where
the program has loops. Each method's contract ties its result and the new state to a function
or relation on values, and the theorems are about those values: every step, every run, every
reachable state. The modules named after laws say what each operation answers without its own
conditions: of numbers, bytes, signatures that verify, texts that are read back, and the calls
made before.

| part | modules |
|---|---|
| shared pieces | `Wrappers`, `Collections` |
| canonical form, text, time | `Text`, `Canon`, `JsonReader`, `CanonFaults`, `Timestamps`, `TimestampLaws` |
| envelopes and signing inputs | `Envelope`, `EnvelopeLaws`, `Crypto` |
| handshake and session table | `Handshakes`, `HandshakeLaws`, `HelloHistory`, `HelloRuns`, `PendingBound`, `Sessions`, `SessionLaws`, `Managers`, `TableLaws` |
| receive window and transport | `Windows`, `WindowLaws`, `DrainLaws`, `Endpoints`, `Transports`, `Channel`, `ChannelLaws` |
| contracts | `Verifications`, `ContractSteps`, `Contracts`, `ContractRuns`, `ContractBounds`, `ContractLaws`, `Formation` |
| the observer of contracts | `Binding`, `RevisionLaws`, `Observers`, `ObserverAgreement`, `ObserverLaws` |
| authority | `OrgCharts`, `Grants`, `GrantLaws`, `Permits`, `Profiles`, `Escalations` |
| graphs | `Digraphs`, `Provenance`, `BuildOrder` |
| request budget | `RateBudgets` |
| comparing transcripts | `Transcripts`, `TranscriptLaws`, `RepeatedNames` |

## Main results

- **Whole-channel safety** (`Channel.ChannelSafety`). From before either end has the session,
  over every interleaving of sealing, receiving, observing, closing, losing and gaining sessions
  at both ends, and whatever envelopes arrive, each side's reports show a prefix of the payloads
  the other side sealed. The two ends gain the session each at a time of its own:
  `Channel.HandshakeConnects` shows that the answer and the completion of a handshake are the two
  gainings the theorem allows, and `Handshakes.HandshakeAgreement` that completing one means
  both ends agree. `Channel.SenderLockstep` holds of either party alone, whatever reaches it.
- **Honest traffic gets through.** Two guardians whose signatures verify under each other's pins
  complete every handshake (`HandshakeLaws.HonestExchange`), a message sealed at one end is shown
  at the other (`ChannelLaws.SealedThenShown`), and up to 64 messages arriving in any order in
  which each finds its place are all shown, in order (`WindowLaws.AllComeThrough`).
- **Forged traffic does not.** Whatever a session table has been asked to do, every session in it
  rests on a hello or an ack that verifies under the pin (`Managers.SessionsVouched`).
- **The window at rest** (`Windows.DrainRests`, `Windows.ArriveRests`, `Windows.DrainIdempotent`),
  and what becomes of each arrival: replayed, early, next, unopenable or ruled out
  (`WindowLaws.EarlyLaw`, `WindowLaws.TurnLaw`, `DrainLaws.UnopenableDropped`, `DrainLaws.WaitingRuledOut`).
- **Canonical text decides the value** (`Canon.CanonicalTextDecidesValue`), up to key order, and
  reads back as it by a JSON reader defined on its own (`JsonReader.CanonicalReadsBack`);
  so do the three signing inputs although they run fields together without separators.
- **Mutual consent over whole runs** (`ContractRuns.MutualConsent`) and **bounded negotiation**
  (`ContractBounds.RunsBounded`): every run, by its limits and the number of amendments given up;
  that number alone is unbounded (`ContractBounds.LapsesUnbounded`).
- **Every call answers to the calls before it.** What each call on a contract does is said in terms
  of what the run so far contains (`ContractLaws.VerdictLaw`, `ContractLaws.AmendmentLaw`); work can
  be sent back as often as the limit allows and be accepted after that (`ContractLaws.ReworkedThenSettled`).
- **The observer accepts what the engine makes** (`ObserverAgreement.ObserverAcceptsEngine`), and what
  it accepts and refuses of any snapshot at all is exact (`ObserverLaws.AnySnapshot`).
- **Authority attenuates** in every reachable ledger (`GrantLaws.AuthorityAttenuates`), and a
  permit lasts exactly its interval (`Permits.PermitLastsItsInterval`).
- **Transcripts compare as they should** (`Transcripts.RenderingsCompare`): equal exactly up to
  a one-to-one renaming of each volatile field's values, for exactly the lists that name no field
  twice (`RepeatedNames.ComparesExactly`).
- **The walks are exact** (`Provenance.Ancestry`, `Provenance.AttestationClosure`,
  `BuildOrder.CheckAcyclic`).

## What is taken as given

The libraries behind the primitives are arbitrary functions collected in `Crypto.Suite`, and
each theorem names what it needs of them: that opening undoes sealing, that both ends of a key
agreement derive the same keys, that a signature which verifies under a pinned key covers
something its owner signed, that digests do not collide. Random values, clocks and session
ids are arguments; a guardian does not get the same session id twice. The date library's RFC 3339 parser is an
arbitrary predicate. No theorem assumes collision-free digests of a fixed length.

## Where the code and its description part ways

The model follows the code.

- `counter` fails when it uses up the last round and ends the negotiation all the same, and
  `decide_amendment` keeps a participant on record before it can fail, so a failed call is
  not always without effect: `ContractRuns.FailedCallChanges` says exactly when it is, and
  `ContractRuns.FailedCounterEndsNegotiation` and `ContractRuns.RefusedAcceptanceStaysOnRecord`
  give an instance of each.
- Limits bound everything but the number of amendments that are refused or expire unanswered
  (`ContractBounds.RunsBounded`, `ContractBounds.LapsesUnbounded`).
- `authorize_siblings` does not look at peer restrictions above the supervisor's own grant, so
  it can issue a grant that never grounds a permit: `Profiles.SiblingGrantGrounds` says when,
  `Profiles.RestrictedSiblingNeverGrounds` that it then never does, and
  `Profiles.SiblingGrantIsIdle` gives an instance.
- A hello is remembered before its answer is made, so one whose answer fails is withheld like
  one that was answered (`HelloRuns.NoSecondAnswer`, `HelloRuns.UnansweredIsWithheld`);
  `HelloRuns.UnansweredHello` is an instance.
- A transcript comparison that names a volatile field twice numbers its own placeholders, and two
  transcripts that match then need not compare equal. `RepeatedNames.ComparesExactly`: for every
  list, the comparison is right about all transcripts if and only if no name is given twice.
- The session id an ack announces is not covered by its signature; it follows from the key
  agreement (`Envelope.AckInputInjective`, `Handshakes.HandshakeAgreement`).
- An agreed but not yet frozen contract does not by itself let empty bindings through
  (`ObserverAgreement.ObserverAcceptsEngine`).

## Model

| member | source | states |
|---|---|---|
| Text.EncodeHex | src/secure/envelope.rs:75-83 | writes the lower-case hexadecimal text of the bytes |
| Text.HexRoundTrip | src/secure/envelope.rs:75-103 | decoding undoes encoding |
| Text.DecodeHexInjective | src/secure/envelope.rs:84-103 | a byte string has one spelling that is accepted |
| Text.Utf8Injective | src/v2/canon.rs:38-52 | text is decided by its UTF-8 bytes |
| Canon.CanonicalIffIntegersOnly | src/v2/canon.rs:102-164 | a value has a canonical form exactly when every number in it is written as an integer |
| Canon.SameCanonical | src/v2/canon.rs:102-138 | values equal up to the order of object members have one canonical form |
| Canon.PrefixCode | src/v2/canon.rs:102-179 | a canonical text ends where the text itself says, whatever follows |
| Canon.CanonicalTextDecidesValue | src/v2/canon.rs:102-179 | integer-only values print alike exactly when they are equal up to key order |
| Canon.WriteValue | src/v2/canon.rs:102-138 | appends exactly the canonical text of the value, or fails with the first number that is no integer |
| Canon.WriteNumber | src/v2/canon.rs:140-164 | appends an integer as it is written and refuses any other number with its path |
| Canon.WriteString | src/v2/canon.rs:166-179 | appends the quoted text with the minimal escapes |
| Canon.WriteFields | src/v2/canon.rs:118-136 | appends the members in byte order of their keys |
| Canon.CanonicalJson | src/v2/canon.rs:38-42 | returns the canonical text or the error of the first fault |
| JsonReader.EscapesExactly | src/v2/canon.rs:166-179 | only the quote, the backslash and the characters below space are escaped, each in one way |
| JsonReader.CanonicalReadsBack | src/v2/canon.rs:102-179 | a reader defined on its own reads the canonical text of any well-formed integer-only value back as that value, with every object in byte order of its keys and nothing left over |
| CanonFaults.FaultNamed | src/v2/canon.rs:102-164 | a value without canonical form is refused for the first number at fault in the order of writing, under its path |
| CanonFaults.NumberExact | src/v2/canon.rs:140-164 | a number has a canonical form exactly when it has neither fraction nor exponent, and that is its own text at any size |
| Timestamps.TextOrderIsTimeOrder | src/v2/canon.rs:68-100 | on valid timestamps the order of the text is the order of the instants |
| Timestamps.EarlierInstant | src/v2/canon.rs:68-100 | comparing the fields of existing dates from the year down is comparing instants by the calendar |
| TimestampLaws.WrittenIsValid | src/v2/canon.rs:68-100 | every moment that exists has a timestamp, four digits for the year and two for the rest, and it stands for that moment |
| TimestampLaws.ValidIsWritten | src/v2/canon.rs:68-100 | every valid timestamp is one of these |
| TimestampLaws.YearsCounted | src/v2/canon.rs:68-100 | years begin where the Gregorian rule of leap years puts them |
| TimestampLaws.MonthsCounted | src/v2/canon.rs:68-100 | and months where the calendar puts them |
| TimestampLaws.DayExists | src/v2/canon.rs:68-100 | a day exists exactly when it comes before the first of the next month |
| Envelope.HeaderWellFormed | src/secure/envelope.rs:192-201 | the header of any envelope has a canonical form |
| Envelope.RouteInjective | src/secure/envelope.rs:107-115 | context and two names run together without separators still come apart in one way |
| Envelope.HelloInputInjective | src/secure/envelope.rs:213-229 | a hello's signing input is decided by context, names, key and nonce, and decides them |
| Envelope.AckInputInjective | src/secure/envelope.rs:230-254 | an ack's signing input is decided by context, names and both keys and nonces, and decides them |
| Envelope.MessageInputInjective | src/secure/envelope.rs:202-212 | a message's signing input decides every field but the signature |
| Envelope.MessageInputIgnoresSignature | src/secure/envelope.rs:202-212 | and does not depend on the signature |
| Envelope.SigningInputsDisjoint | src/secure/envelope.rs:202-254 | no bytes are a signing input of two kinds |
| Envelope.MessageSigningInput | src/secure/envelope.rs:202-212 | builds the message input or fails as its parts do |
| Envelope.HelloSigningInput | src/secure/envelope.rs:213-229 | builds the hello input piece by piece |
| Envelope.AckSigningInput | src/secure/envelope.rs:230-254 | builds the ack input piece by piece |
| EnvelopeLaws.ValidExact | src/secure/envelope.rs:104-184 | valid exactly when each field spells bytes of its length, the binding is empty or a digest, and nothing its kind needs is missing |
| EnvelopeLaws.UrnExact | src/secure/envelope.rs:107-115 | the scheme, then a letter or digit, then letters, digits and dashes |
| EnvelopeLaws.HelloSigns | src/secure/envelope.rs:213-229 | the label, context, sender and receiver as one text, then the key, then the nonce |
| EnvelopeLaws.AckSigns | src/secure/envelope.rs:230-254 | the label, context, answerer and initiator as one text, then key and nonce of the hello, then its own |
| EnvelopeLaws.MessageSigns | src/secure/envelope.rs:192-212 | the label, a header text that reads as an object of exactly the header fields under their names, then the ciphertext |
| Crypto.NonceInjective | src/secure/crypto.rs:152-156 | different sequence numbers give different nonces |
| SessionLaws.NonceLayout | src/secure/crypto.rs:152-156 | four zero bytes, and eight that read as the number |
| Handshakes.TranscriptAlwaysBuilt | src/secure/session.rs:323-341 | building the transcript of an acceptable ack with a kept hello for its sender cannot fail |
| Handshakes.AuthenticExact | src/secure/session.rs:192-209 | a hello is taken up exactly when it is valid, addressed here by somebody else, and signed under the pin; each refusal is named |
| Handshakes.AnsweredHelloIsMade | src/secure/session.rs:192-263 | under an unforgeable pin, the hello an answering session rests on was made by its owner, in this context, between these two, with this key and nonce |
| HandshakeLaws.MakeHelloExact | src/secure/session.rs:161-180 | when a hello is made and what it is; a refusal names what is missing |
| HandshakeLaws.AnswerExact | src/secure/session.rs:221-263 | the answer is what the key agreement derives from its scalar and both keys and nonces, or the first thing that fails |
| HandshakeLaws.AcceptableExact | src/secure/session.rs:303-316 | an ack is looked at exactly when it is valid and addressed here by somebody else |
| HandshakeLaws.CompletionExact | src/secure/session.rs:342-375 | completing derives what the key agreement gives, and fails when the ack announces another session id |
| Handshakes.HandshakeAgreement | src/secure/session.rs:161-375 | who completes a handshake agrees with who answered on context, hello, session id and keys, in opposite directions |
| Handshakes.HonestHandshakeCompletes | src/secure/session.rs:161-375 | a hello and its answer, undisturbed and under the right pin, always complete with one session id and one pair of keys |
| HandshakeLaws.HonestExchange | src/secure/session.rs:161-375 | between two well-named guardians whose signatures verify under each other's pins, hello, answer and completion succeed, with one id, one pair of keys and the right ends |
| HelloHistory.QueueIsNewestKeys | src/secure/session.rs:291-302 | the history is always the newest 1024 of the keys that were new when they came, without duplicates |
| HelloHistory.ForgottenAfter | src/secure/session.rs:291-302 | a remembered key stands as many places from the end as new keys have come since |
| HelloHistory.SecondAnswerWithheld | src/secure/session.rs:291-302 | a key stays in the queue until exactly 1024 further keys were new |
| HelloRuns.NoSecondAnswer | src/secure/session.rs:192-302 | a hello once taken up, answered or not, gets nothing from `respond_once` until exactly 1024 further keys were new, over every run of what the table is asked, evictions and closed contexts included |
| HelloRuns.WithheldWasTaken | src/secure/session.rs:267-302 | a hello is withheld only when one with its signature was taken up before in this very context |
| HelloRuns.UnansweredIsWithheld | src/secure/session.rs:192-290 | an authentic hello whose answer fails for want of a random number is withheld from then on |
| HelloRuns.UnansweredHello | src/secure/session.rs:192-290 | an instance of such a hello |
| PendingBound.CountIsWaiting | src/secure/session.rs:119-128 | counting pending hellos and unconfirmed answers counts their order numbers |
| PendingBound.TrimmedUnique | src/secure/session.rs:119-160 | keeping the newest three of at least four determines what is left |
| PendingBound.TrimStep | src/secure/session.rs:119-160 | dropping the oldest is one step towards that |
| TableLaws.AckIsForHello | src/secure/session.rs:192-263 | whatever ack goes out belongs to an answering session for the very hello that came in |
| TableLaws.SameHelloSameAck | src/secure/session.rs:211-220 | a hello that has an answering session gets its ack again and nothing changes |
| TableLaws.NewHelloNewAck | src/secure/session.rs:119-263 | a hello without one gets a fresh answer under the next number; fewer than four unfinished handshakes are left alone, of more the newest three stay |
| TableLaws.FourAtMost | src/secure/session.rs:119-160 | no peer ever has more than four unfinished handshakes |
| TableLaws.CompletedByThisAck | src/secure/session.rs:303-375 | whoever completes does so with this very ack, in this context, under the id it announces |
| TableLaws.SameAckSameSession | src/secure/session.rs:317-321 | the same ack again finds its session and changes nothing |
| TableLaws.UnsignedAckRefused | src/secure/session.rs:322-341 | an ack that verifies for no kept hello is refused and changes nothing |
| Sessions.SealMessageCarries | src/secure/session.rs:385-432 | a sealed message carries the payload under the session's next number; any failure keeps the session or ends it |
| Sessions.SpentOrEnded | src/secure/session.rs:385-432 | once there is a ciphertext, the number is passed with the envelope or the session ends |
| Sessions.OpensWhatWasSealed | src/secure/session.rs:450-473 | opening a copy of what the peer sealed gives back its payload |
| SessionLaws.VerifyExact | src/secure/session.rs:433-449 | a message verifies exactly when it is valid, from the peer to this guardian, and signed under the pin |
| SessionLaws.OpenedExact | src/secure/session.rs:450-473 | it then opens exactly when its ciphertext decrypts under the peer's key, the nonce of its number and the signed header; the last number is refused |
| SessionLaws.SealExact | src/secure/session.rs:385-432 | what sealing answers in every case: exhausted, out of turn, malformed, not encrypted, sealed, or spent and ended |
| Managers.SessionManager.NextOrder | src/secure/session.rs:112-118 | order numbers are given once and end instead of wrapping |
| Managers.SessionManager.EvictOldest | src/secure/session.rs:131-158 | drops exactly the lowest order number of both collections; one of them is never empty here |
| Managers.SessionManager.BoundPending | src/secure/session.rs:119-160 | ends with fewer than four unfinished handshakes with the peer, the newest three of any more, and touches nothing else |
| Managers.SessionManager.Initiate | src/secure/session.rs:161-191 | sends a hello and queues it last under a new number, or fails and changes nothing |
| Managers.SessionManager.Respond | src/secure/session.rs:192-263 | checks, remembers the hello, repeats the answer of a living session or adds one under a new number |
| Managers.SessionManager.RespondOnce | src/secure/session.rs:267-290 | answers nothing exactly when the history has the context and signature, and then changes nothing; otherwise as a first answer |
| Managers.SessionManager.RememberHello | src/secure/session.rs:291-302 | set and queue hold the same keys, at most 1024, oldest forgotten first |
| Managers.SessionManager.Complete | src/secure/session.rs:303-375 | turns the first pending hello the ack is signed for into a session, once |
| Managers.SessionsVouched | src/secure/session.rs:192-375 | in every table every session rests on a hello or an ack of the named peer that verifies under the pin |
| Managers.SessionManager.Seal | src/secure/session.rs:385-432 | spends the number before anything else can fail and closes the session if it does |
| Managers.SessionManager.VerifyMessage | src/secure/session.rs:433-449 | shape, lookup, routing and signature, in this order, without any change |
| Managers.SessionManager.OpenAuthenticated | src/secure/session.rs:450-473 | opens, confirms the session, and ends it at the last number |
| Managers.SessionManager.Close | src/secure/session.rs:474-479 | removes one session and reports whether there was one |
| Managers.SessionManager.CloseContext | src/secure/session.rs:480-484 | removes exactly the hellos and sessions of a context |
| Binding.CheckBinding | src/secure/transport.rs:33-92 | answers a claimed binding under any view: accepted, pending or mismatched |
| Binding.CheckExact | src/secure/transport.rs:33-92 | under any view: accepted exactly when what is shown is in order, the claim is not superseded, and it is carried by a frozen contract shown or is empty while one may come; pending and mismatch likewise |
| Binding.AcceptedIsShown | src/secure/transport.rs:33-92 | nothing but the empty binding is accepted without a genuine frozen contract, shown by the view, that carries it |
| Binding.ShortcutsAgree | src/secure/guardian.rs:528-542 | the two short forms of a view answer every claim as the general form does |
| Binding.RevisionCanonical | src/v2/contract.rs:721-728 | a revision object has a digest exactly when its content has a canonical form |
| RevisionLaws.DigestCovers | src/v2/contract.rs:721-728 | the digest is the hash of a text that reads as contract id, number and content and nothing else |
| Windows.AuthenticateOrdered | src/secure/transport.rs:302-325 | the first pass moves the mark over what continues it and leaves the next number not held |
| Windows.DeliverOrdered | src/secure/transport.rs:326-366 | the second pass hands over in order and stops only at an envelope whose contract is pending |
| Windows.DrainRests | src/secure/transport.rs:293-390 | a drain that does not abort leaves the window at rest, nothing ruled out, and something accepted only behind a pending contract |
| Windows.DrainIdempotent | src/secure/transport.rs:278-390 | observing again with the same view changes nothing and shows the same holds |
| Windows.ArriveRests | src/secure/transport.rs:225-276 | an arrival keeps the window at rest or ends the session and clears the report |
| Windows.ArriveContents | src/secure/transport.rs:225-390 | what an arrival shows was held under its own number, or is the arrival |
| Windows.InOrderDelivery | src/secure/transport.rs:225-276 | in order, with nothing waiting and an accepted binding, a message is shown at once |
| WindowLaws.ReplayLaw | src/secure/transport.rs:226-229 | a number that was passed or is held is a replay and changes nothing |
| WindowLaws.LastNumberLaw | src/secure/transport.rs:230-233 | the last number ends the session |
| WindowLaws.EarlyLaw | src/secure/transport.rs:234-252 | an early message is held exactly when nothing waits beyond the hole or something beyond it waits already; otherwise a gap, and an overflow exactly at 64 |
| WindowLaws.TurnLaw | src/secure/transport.rs:253-276 | the message whose turn it is: rejected if it does not open, the end of the session if it is ruled out or finds 64 held, else put with the rest and drained |
| WindowLaws.FlowLaw | src/secure/transport.rs:293-390 | when all that is held opens and nothing is ruled out, everything below the first missing number is shown up to the first pending contract |
| WindowLaws.DrainAbortsOnlyFor | src/secure/transport.rs:293-390 | a drain ends a session only for something held that does not open or is ruled out |
| WindowLaws.ArrivalFlows | src/secure/transport.rs:253-390 | a message in its turn opens the way for all that follows it |
| WindowLaws.AllComeThrough | src/secure/transport.rs:201-390 | up to 64 messages, each finding its place when it arrives at a fresh window, are all shown in order |
| WindowLaws.SwappedPairShown | src/secure/transport.rs:201-390 | of two messages that arrive in exchanged order both are shown |
| DrainLaws.UnopenableDropped | src/secure/transport.rs:302-325 | a held message that does not open is dropped and reported; all else goes as if it had never come |
| DrainLaws.RuledOutEnds | src/secure/transport.rs:302-325 | one that opens and is ruled out ends the session, and nothing is shown |
| DrainLaws.WaitingRuledOut | src/secure/transport.rs:326-390 | so does one that waits for its contract, wherever it stands in the queue |
| DrainLaws.NoLongerOpens | src/secure/transport.rs:344-353 | so does one that no longer opens when its turn to be shown comes |
| DrainLaws.HeldListed | src/secure/transport.rs:366-390 | what is still held is listed in ascending order with what it waits for |
| Endpoints.SealFrame | src/secure/transport.rs:155-185 | sealing leaves the receiving half and all other sessions alone |
| Endpoints.ReceiveFrame | src/secure/transport.rs:201-276 | receiving leaves the sending half and all other sessions alone, and every window at rest |
| Endpoints.ObserveFrame | src/secure/transport.rs:278-292 | observing leaves the sending half and all other sessions alone |
| Transports.Transport.Close | src/secure/transport.rs:151-154 | forgets session and window together |
| Transports.Transport.Abort | src/secure/transport.rs:186-200 | closes and takes back deliveries and holds from the report |
| Transports.Transport.Seal | src/secure/transport.rs:155-185 | both counters and the envelope are those of one sealing step |
| Transports.Transport.SealNext | src/secure/transport.rs:174-185 | seals under the window's number and moves it on when it succeeds |
| Transports.Transport.Receive | src/secure/transport.rs:201-276 | state and report are those of one receiving step |
| Transports.Transport.Observe | src/secure/transport.rs:278-292 | state and report are those of one observing step |
| Transports.Transport.Drain | src/secure/transport.rs:293-390 | the three passes together |
| Transports.Transport.AuthenticateHeld | src/secure/transport.rs:302-325 | the loop of the first pass, within 64-bit numbers |
| Transports.Transport.DeliverAccepted | src/secure/transport.rs:326-366 | the loop of the second pass |
| Transports.ListHeld | src/secure/transport.rs:367-389 | the loop of the third pass: the held list, or the first contradiction |
| Transports.Transport.HoldEarly | src/secure/transport.rs:229-246 | a message beyond a hole is held, or overflows, or would widen the gap |
| Transports.Transport.AdmitNext | src/secure/transport.rs:248-275 | the message with the next number |
| Channel.SealCounts | src/secure/transport.rs:155-185 | window and session counters move together or not at all |
| Channel.VerifiedIsCopy | src/secure/session.rs:433-449 | under an unforgeable key a verified message is a copy of a sealed one with its number |
| Channel.ChannelSafety | src/secure/transport.rs:155-390 | over every run from before either end has the session, each side's reports show a prefix of the payloads the other side sealed, in order and once each |
| Channel.SenderLockstep | src/secure/session.rs:385-432 | for either party, over every run of its own actions, failures included: it encrypts under the numbers 0, 1, 2, ... with different nonces, releases all but perhaps a last one that ended the session, and both counters equal their number |
| Channel.EachAlone | src/secure/transport.rs:155-390 | in a run of both parties each goes through its own actions, so that holds there too |
| Channel.ExhaustedCloses | src/secure/transport.rs:176-180 | at the last number the session is closed instead of wrapping |
| Channel.HandshakeConnects | src/secure/session.rs:161-375 | the sessions of an answer and of its completion under pinned keys are the two ends of one deal, and each guardian may gain its own at any time |
| ChannelLaws.SealedThenShown | src/secure/transport.rs:155-276 | a message sealed at one end whose signature verifies at the other, in its turn and with its binding accepted, is shown with its sender, binding, number and payload |
| ChannelLaws.RejectedMessage | src/secure/transport.rs:201-225 | what is no message of a known session is rejected for the first thing wrong with it, and nothing changes |
| ChannelLaws.SealAnswers | src/secure/transport.rs:155-185 | what sealing answers before it encrypts; a pending binding lets the message through |
| ChannelLaws.StaleWindowsDropped | src/secure/transport.rs:155-208 | after receiving or sealing a window is kept only for a session that is there, but for that of a session the sealing ended |
| ChannelLaws.NothingToObserve | src/secure/transport.rs:278-300 | observing a session that is not there drops its window and says so; without a window nothing is shown |
| Verifications.AcceptNeedsEvidence | src/v2/verification.rs:106-138 | a valid acceptance names artifacts and rests on checks that all passed |
| Verifications.ValidateExact | src/v2/verification.rs:108-135 | which records are in order, and what is wrong with the others |
| Verifications.AgentUrnExact | src/v2/envelope.rs:96-129 | the scheme, then one to sixty-four letters, digits, dots, underscores and dashes |
| Contracts.Contract.Counter | src/v2/contract.rs:364-404 | the state, votes and rounds after a counter, also when it uses up the last round |
| Contracts.Contract.Agree | src/v2/contract.rs:408-433 | records a vote for the terms; two votes make an agreement |
| Contracts.Contract.Freeze | src/v2/contract.rs:451-482 | records the agreed terms as the next revision |
| Contracts.Contract.Withdraw | src/v2/contract.rs:491-505 | ends a contract that is not frozen |
| Contracts.Contract.ExpireNegotiation | src/v2/contract.rs:509-530 | ends a negotiation, or puts a one-sided amendment back |
| Contracts.Contract.Submit | src/v2/contract.rs:534-554 | takes a submission for the latest revision |
| Contracts.Contract.Decide | src/v2/contract.rs:558-591 | settles, rejects, or sends back within the rework limit |
| Contracts.Contract.ApplyVerification | src/v2/contract.rs:597-626 | decides only on a record that answers what is pending, from the other side |
| Contracts.Contract.ProposeAmendment | src/v2/contract.rs:638-660 | opens an amendment within the limit |
| Contracts.Contract.DecideAmendment | src/v2/contract.rs:666-715 | refuses, records a vote, or records the next revision |
| ContractRuns.StepSound | src/v2/contract.rs:364-715 | every call keeps votes, history, bounds and submission in order |
| ContractRuns.FreezeOutcome | src/v2/contract.rs:451-482 | freezing an agreed contract succeeds exactly for the agreed terms; it never lacks a vote or a canonical form |
| ContractRuns.MutualConsent | src/v2/contract.rs:364-482 | each revision was recorded when both participants stood by its content since the last change of terms; revisions are appended and numbered from one |
| ContractRuns.AcceptedIsRecorded | src/v2/contract.rs:435-446 | who accepted the recorded digest accepted the recorded content |
| ContractRuns.RevisionsAppend | src/v2/contract.rs:451-482 | recorded revisions stay where they are |
| ContractRuns.TerminalAbsorbs | src/v2/contract.rs:67-97 | in the four terminal states every call fails and changes nothing |
| ContractRuns.TerminalForever | src/v2/contract.rs:67-97 | so they are final |
| ContractRuns.SettledByCounterparty | src/v2/contract.rs:597-626 | without bare verdicts, a settled contract was checked by who had not submitted, against the latest revision, with all checks passed |
| ContractRuns.FailedCallChanges | src/v2/contract.rs:364-404 | a failed call changes nothing exactly when it neither uses up the last round nor adds a participant to an amendment |
| ContractRuns.FailedCounterEndsNegotiation | src/v2/contract.rs:390-399 | an instance of a failing call that ends a negotiation |
| ContractRuns.RefusedAcceptanceStaysOnRecord | src/v2/contract.rs:666-691 | an instance of a failing call that leaves a participant on record |
| ContractBounds.StepDecreases | src/v2/contract.rs:364-715 | every effective call, lapsed amendments aside, lowers a lexicographic measure |
| ContractBounds.RunsBounded | src/v2/contract.rs:49-61 | over every run, effective calls are bounded by the limits, once more for every amendment that lapses |
| ContractBounds.NegotiationBounded | src/v2/contract.rs:49-61 | so by the limits alone while no amendment lapses |
| ContractBounds.LimitsRespected | src/v2/contract.rs:364-715 | revisions, amendments, reworks and rounds stay within the limits, and an agreement has both votes |
| ContractBounds.LapsesUnbounded | src/v2/contract.rs:509-691 | lapses are not bounded: there are runs with any number of amendments refused, and with any number expired |
| ContractLaws.RunIsRecorded | src/v2/contract.rs:364-715 | over every run from formation the counts and names on record are those read off the calls made |
| ContractLaws.CounterLaw | src/v2/contract.rs:364-404 | which counters are taken, and which uses up the last round and ends the negotiation |
| ContractLaws.AgreeLaw | src/v2/contract.rs:408-446 | which agreements are taken, and when they make two |
| ContractLaws.FreezeLaw | src/v2/contract.rs:451-482 | the terms both agreed to become the first revision |
| ContractLaws.WithdrawLaw | src/v2/contract.rs:491-504 | a participant ends what has not been frozen, as withdrawn |
| ContractLaws.ExpiryLaw | src/v2/contract.rs:509-530 | a negotiation and an amendment both took part in end without agreement; a one-sided amendment is put back |
| ContractLaws.SubmitLaw | src/v2/contract.rs:534-553 | a participant submits for the latest revision, while executing |
| ContractLaws.VerdictLaw | src/v2/contract.rs:558-626 | an acceptance settles, a rejection rejects, and a rework returns to executing exactly while fewer were given than the limit |
| ContractLaws.RecordRefused | src/v2/contract.rs:597-626 | why a record is refused: out of order, from an outsider, with nothing being verified, or answering something else |
| ContractLaws.ProposalLaw | src/v2/contract.rs:638-660 | an amendment is opened while executing and fewer were made than the limit |
| ContractLaws.AmendmentLaw | src/v2/contract.rs:666-715 | a refusal puts it back, an acceptance votes, two votes record the next revision |
| ContractLaws.ReworkedThenSettled | src/v2/contract.rs:534-626 | for every executing contract there is a run with as many reworks as are left that ends settled |
| Formation.Propose | src/v2/contract.rs:242-348 | a contract is formed exactly under the listed conditions, and a refusal names the first one that fails; a delegation needs its grant and path |
| Formation.DelegationIsGrounded | src/v2/contract.rs:283-325 | a delegation's performer holds the grant and its path runs from a root down to the delegator |
| Observers.ReadContract | src/secure/guardian.rs:460-527 | what one contract adds to the scan, or that it is malformed |
| Observers.DeriveView | src/secure/guardian.rs:419-543 | the view of a whole snapshot |
| ObserverLaws.ScanExact | src/secure/guardian.rs:453-527 | a snapshot of any contracts is refused exactly for a malformed one, and otherwise all there is to see is seen |
| ObserverLaws.AnySnapshot | src/secure/guardian.rs:419-543 | what is accepted, pending and mismatched under the view of any snapshot, in or out of session |
| ObserverAgreement.ScanCollects | src/secure/guardian.rs:453-527 | over engine-made contracts the scan succeeds and collects exactly the latest and the earlier revisions and open negotiations |
| ObserverAgreement.DigestTells | src/v2/contract.rs:721-728 | a revision digest decides contract id and number |
| ObserverAgreement.LatestIsNotEarlier | src/secure/transport.rs:57-59 | no binding is both a latest and an earlier revision |
| ObserverAgreement.ObserverAcceptsEngine | src/secure/guardian.rs:453-543 | the check accepts exactly the latest revisions of frozen contracts, and empty bindings while something never froze or nothing is frozen |
| ObserverAgreement.AnotherSessionWaits | src/secure/guardian.rs:451-451 | under a snapshot of another session only the empty binding is accepted and any other waits |
| OrgCharts.WalkChain | src/v2/grant.rs:342-354 | the loop yields the chain or the agent it came to again |
| OrgCharts.CheckedChainExact | src/v2/grant.rs:342-354 | on any chart the walk ends; it fails exactly when it would revisit somebody |
| OrgCharts.ValidIsAcyclic | src/v2/grant.rs:356-364 | on a chart that validates every agent's chain ends |
| OrgCharts.LcaIsLowest | src/v2/grant.rs:371-380 | the lowest common supervisor is above both, is neither, and is below every other common one |
| OrgCharts.LcaExact | src/v2/grant.rs:371-380 | there is one such agent at most, and it is found exactly when there is |
| OrgCharts.LcaSymmetric | src/v2/grant.rs:371-380 | the order of the parties does not matter |
| Grants.ValidateChart | src/v2/grant.rs:356-364 | accepts a chart, or names the fault of the first child in the order of names that has one |
| Grants.GrantLedger.Issue | src/v2/grant.rs:228-263 | records a grant exactly when shape, parent, openness, grantor and scopes allow it |
| Grants.GrantLedger.Revoke | src/v2/grant.rs:266-274 | closes a known grant |
| Grants.GrantLedger.IsOpen | src/v2/grant.rs:277-295 | tells whether the grant and all its ancestors are open; the cycle arm is never reached |
| Grants.GrantLedger.HeldBy | src/v2/grant.rs:298-303 | exactly the open grants of an agent |
| Grants.GrantLedger.Covered | src/v2/grant.rs:306-310 | whether one of them names the scope |
| Grants.GrantLedger.Preauthorizes | src/v2/grant.rs:315-321 | the first standing grant by id, or none |
| Grants.GrantLedger.AllowsPeer | src/v2/grant.rs:191-221 | the unguarded walk ends, misses no grant, and checks every peer restriction above |
| Grants.GrantLedger.ClampedExpiry | src/v2/grant.rs:523-529 | the earliest end of the whole chain |
| GrantLaws.StepLawful | src/v2/grant.rs:228-274 | issuing and revoking keep parents recorded first and authority narrowing |
| GrantLaws.AuthorityAttenuates | src/v2/grant.rs:228-310 | an agent is covered exactly when a good chain leads from a charter down to it |
| GrantLaws.IssueDisturbsNothing | src/v2/grant.rs:228-263 | issuing opens and closes no other grant |
| GrantLaws.RevokeClosesDescendants | src/v2/grant.rs:266-295 | revoking closes exactly the grant and its descendants |
| GrantLaws.ClosedForGood | src/v2/grant.rs:266-295 | whatever happens later |
| GrantLaws.ShapeExact | src/v2/grant.rs:130-161 | a grant is in shape exactly when its names are in order and its window does not end before it begins |
| GrantLaws.IssueExact | src/v2/grant.rs:228-263 | a known grant only word for word; a new one exactly when it is in shape and a charter, or its parent is open, held by the grantor and lets every scope pass |
| GrantLaws.IssueRefusals | src/v2/grant.rs:228-263 | which refusal a new grant gets from its parent |
| GrantLaws.OpenItselfExact | src/v2/grant.rs:277-295 | open at the instants of its window, both ends included, while not revoked |
| Permits.IssueByLca | src/v2/grant.rs:462-489 | succeeds exactly for an issuer above both parties and below everybody else above both, on a valid chart and request; otherwise the first thing wrong is named |
| Permits.IssueByPreauthorization | src/v2/grant.rs:493-543 | a permit is issued exactly when the first standing grant grounds it, with the clamped expiry; otherwise the first thing wrong is named |
| Permits.AuthorizeSession | src/v2/grant.rs:547-624 | admitted exactly for a valid time, pair, class and a basis that still stands; otherwise the first thing wrong is named |
| Permits.PermitLastsItsInterval | src/v2/grant.rs:493-624 | admitted at every valid time from issue to expiry and never after, in either order |
| Permits.PermitDiesWithItsGrant | src/v2/grant.rs:569-624 | never again once an ancestor is revoked |
| Permits.LcaPermitLasts | src/v2/grant.rs:569-605 | a supervisor's permit holds in either order while the chart stays |
| Permits.PermitFollowsChart | src/v2/grant.rs:547-624 | under any other chart a preauthorization permit is admitted before its expiry exactly when the peer is in the grantor's branch there, and a sibling where the grant is restricted |
| Permits.RefusedOutsideBranch | src/v2/grant.rs:547-624 | it is refused once the peer has left that branch |
| Permits.LcaPermitFollowsChart | src/v2/grant.rs:569-605 | a supervisor's permit is admitted under exactly the valid charts with the same lowest supervisor |
| Permits.RequestExact | src/v2/grant.rs:628-640 | which requests are in order |
| Permits.StandsOnHeldScope | src/v2/grant.rs:547-624 | an admitted permit stands on a grant its requester holds, open now, with the scope of its class |
| Profiles.AuthorizeSiblings | src/v2/profile.rs:71-118 | succeeds exactly for siblings on a valid chart under a first grant of their supervisor that may pass the scope on, when the ledger takes the grant; otherwise the error and no change |
| Profiles.SiblingGrantGrounds | src/v2/profile.rs:71-118 | at its issue that grant grounds a permit exactly when nothing above it is restricted to another peer |
| Profiles.RestrictedSiblingNeverGrounds | src/v2/profile.rs:71-118 | and if something is, it never does: for no request, chart or time, after no run of issues and revocations |
| Profiles.SiblingGrantCanBeIdle | src/v2/profile.rs:71-118 | whatever the names, under a charter restricted to a stranger the siblings are authorized and the grant is of no use |
| Profiles.SiblingGrantIsIdle | src/v2/profile.rs:71-118 | an instance |
| Profiles.SiblingGrantEndsThere | src/v2/profile.rs:71-118 | nothing can be issued under a sibling grant for its scope |
| Escalations.Raise | src/v2/escalation.rs:100-148 | the whole record of a dispute between siblings, or parent and child, with its mediator |
| Escalations.RaiseExact | src/v2/escalation.rs:100-148 | taken exactly from siblings and from parent and child, in either order, with whoever is right above both as mediator; each refusal is named |
| Escalations.Escalation.Refer | src/v2/escalation.rs:154-175 | moves the record to the lowest common supervisor, or one above the mediator, or refuses |
| Escalations.Escalation.InvokeArbiter | src/v2/escalation.rs:178-187 | names an arbiter on the record, or refuses |
| Escalations.Escalation.Resolve | src/v2/escalation.rs:190-197 | puts a ruling on the record of a referred dispute, or refuses |
| Escalations.Escalation.ConcludeNoAgreement | src/v2/escalation.rs:201-207 | gives up an open dispute, or refuses |
| Escalations.OverForGood | src/v2/escalation.rs:154-207 | a dispute resolved or given up never changes over any run, and every move on it is refused |
| Escalations.LadderClimbed | src/v2/escalation.rs:100-207 | over every run from a raise: one referral at most and to its target, one ruling, only after it and exactly when resolved, a third party as arbiter, and the rest as raised |
| Escalations.RecordTells | src/v2/escalation.rs:154-207 | over every run from a raise, given up exactly when a conclusion was not refused, resolved exactly when a ruling was not, and the arbiter on record is the last not refused |
| Escalations.RefusedExactly | src/v2/escalation.rs:154-207 | which moves are refused, and how, in terms of the moves before |
| Escalations.ReferralClimbsOneLevel | src/v2/escalation.rs:100-175 | after a legal raise a referral succeeds exactly when the chains end, and climbs one level unless at the top |
| Digraphs.Walker.Visit | src/v2/artifact.rs:206-238 | the coloured walk keeps its order topological and explains every failure by a path |
| Digraphs.Closure | src/v2/artifact.rs:188-204 | lists exactly what is above a start, or reports a real fault |
| Provenance.Ancestry | src/v2/artifact.rs:188-238 | succeeds exactly when no unknown id and no cycle is reachable, and lists the ancestors once each, parents first |
| Provenance.FirstArtifactCounts | src/v2/artifact.rs:188-204 | of several artifacts with one id the first counts |
| Provenance.AttestationClosure | src/v2/verification.rs:144-182 | the same for attestations, whose walk is not told its start |
| Provenance.FirstRecordCounts | src/v2/verification.rs:144-160 | of several records with one id the first counts |
| BuildOrder.GraphIsNeeds | src/contract.rs:127-137 | the edges are exactly who needs what |
| BuildOrder.CheckAcyclic | src/contract.rs:123-168 | succeeds exactly when nothing needs itself; a reported node does |
| RateBudgets.RecentCounts | src/secure/guardian.rs:52-65 | dropping expired admissions from the front leaves as many as counting over the full history |
| RateBudgets.BudgetKept | src/secure/guardian.rs:52-65 | any cap + 1 admissions in a row span at least a minute |
| RateBudgets.LogsApart | src/secure/guardian.rs:69-76 | limit-hit records are at least a minute apart |
| RateBudgets.RefusedOnlyWhenSpent | src/secure/guardian.rs:52-65 | a request is refused exactly when the last cap admissions all lie less than sixty seconds back; one sixty seconds after the oldest of them is admitted |
| RateBudgets.UnrecordedOnlyWhenRecent | src/secure/guardian.rs:69-76 | a limit hit goes unrecorded exactly when the last record is less than sixty seconds old |
| RateBudgets.RateBudget.PermitAt | src/secure/guardian.rs:52-65 | the queue answers as the full history would; a refusal means exactly cap in the trailing minute; the cast loses nothing |
| RateBudgets.RateBudget.ShouldLogRateLimitAt | src/secure/guardian.rs:69-76 | writes a record exactly when none is in the trailing minute |
| Transcripts.OrdinalsForgetNames | tests/common/mod.rs:78-104 | numbering values by first occurrence forgets exactly their names |
| TranscriptLaws.NumberedByFirst | tests/common/mod.rs:84-104 | a new value gets one more than the number of values before it, a known one its number again |
| TranscriptLaws.LineReads | tests/common/mod.rs:78-112 | each line reads as the direction and the envelope, volatile fields as tagged numbers and every other member as it is |
| Transcripts.CanonicalOneLine | src/v2/canon.rs:102-179 | a canonical text holds no line break |
| Transcripts.JoinTells | tests/common/mod.rs:105-112 | joined lines come apart in one way |
| Transcripts.MaskedSame | tests/common/mod.rs:86-104 | masked envelopes are equal exactly when they agree on what is stable and on their tags |
| Transcripts.TranscriptsCompare | tests/common/mod.rs:78-114 | two transcripts render equal exactly when they match up to a one-to-one renaming of each volatile field's values |
| Transcripts.RenderingsCompare | tests/common/mod.rs:78-114 | and so it is of what is rendered, for lists that name no field twice |
| Transcripts.MaskField | tests/common/mod.rs:88-103 | gives a value the ordinal it has, or the next one of its field |
| Transcripts.MaskFrame | tests/common/mod.rs:84-104 | the loop over the volatile fields, for any list of names |
| Transcripts.FrameMasked | tests/common/mod.rs:84-104 | with no name given twice it masks every volatile field by its place among the values seen, and carries the ordinals on |
| Transcripts.Render | tests/common/mod.rs:78-114 | the loop over the frames, for any list of names |
| Transcripts.RenderExact | tests/common/mod.rs:78-114 | with no name given twice it writes the masked frames, one to a line, exactly when all their numbers are integers |
| RepeatedNames.ComparesExactly | tests/common/mod.rs:78-114 | for every list, renderings are equal exactly for transcripts that match up to renaming if and only if the list names no field twice |
| RepeatedNames.RepeatedNameMisleads | tests/common/mod.rs:84-104 | for any list with a name at two places, two transcripts that match up to renaming and are rendered differently |

## Left out

- Sockets, file edges, permissions, process startup, audit files and command-line programs: input and output.
- Reading JSON: `contract_view` starts from a snapshot that is already parsed, and snapshots from before votes carried a digest are not modelled.
- The bodies of the cryptographic libraries and of the RFC 3339 parser, and randomness.
- Wiping of plaintext and key memory: values have no memory to wipe.
- Digraphs.Walker.Visit: the program writes the same walk three times; here it is written once and used three times, on the graph each of them searches its list for.
- Grants.GrantLedger.ClampedExpiry: the loop over `min` stands in `by_preauthorization` in the program.
- Managers.SessionManager.Respond: when two sessions would answer the same hello the program takes the first by id; the table never holds two.
- Binding.CheckBinding: whatever is malformed in a view answers as a mismatch, as in the program, so which entry was malformed first does not show.
- Shape checks of artifacts, requests' other fields, schemas, evidence, reports and legacy state: single-branch facts.
- The arity check and the declaration check of the pairwise profile: each is one comparison.
- Recording, saving and loading transcripts: input and output.
