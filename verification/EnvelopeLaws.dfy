/**
 What stands on the wire and under each signature, byte for byte (`src/secure/envelope.rs`):
 the shape of an envelope in terms of the bytes its fields spell, and where every part of a
 signing input is found again.
 */
module EnvelopeLaws {
  import opened Wrappers
  import opened Text
  import opened Canon
  import opened JsonReader
  import opened Envelope

  // ------------------------------------------------------------ shape check

  /** The text spells this many bytes. */
  ghost predicate Spells(s: string, len: nat) {
    exists b: Bytes :: |b| == len && HexText(b) == s
  }

  ghost predicate SpelledIfAny(value: Option<string>, len: nat) {
    value.Some? ==> Spells(value.value, len)
  }

  lemma DecodesIffSpells(s: string, len: nat)
    ensures Spells(s, len) <==> DecodeHex(s).Some? && |DecodeHex(s).value| == len
  {
    if DecodeHex(s).Some? {
      HexPairsOfText(s);
    }
    forall b: Bytes | HexText(b) == s ensures DecodeHex(s) == Some(b) {
      HexRoundTrip(b);
    }
  }

  ghost predicate SpelledFields(e: SecureEnvelope) {
    && SpelledIfAny(e.sid, 16) && SpelledIfAny(e.epub, 32) && SpelledIfAny(e.nonce, 32) && SpelledIfAny(e.sig, 64)
    && (e.ct.Some? ==> exists n: nat :: n >= 16 && Spells(e.ct.value, n))
    && (e.contract != "" ==> exists digest :: Spells(digest, 32) && e.contract == "sha256:" + digest)
  }

  /** What a kind of envelope has to carry, signature and ciphertext included. */
  predicate Complete(e: SecureEnvelope) {
    && e.sig.Some?
    && match e.kind
       case Msg => e.sid.Some? && e.seq_.Some? && e.ct.Some?
       case Hello => e.epub.Some? && e.nonce.Some? && e.contract == ""
       case Ack => e.sid.Some? && e.epub.Some? && e.nonce.Some? && e.contract == ""
  }

  /**
   An envelope is valid exactly when its fields spell what they stand for: sixteen bytes of
   session id, keys and nonces of thirty-two, a signature of sixty-four, a ciphertext of sixteen
   or more, and a binding that is empty or a digest.
   */
  lemma ValidExact(rfc3339: string -> bool, e: SecureEnvelope)
    ensures Valid(rfc3339, e)
            <==> e.v == 1 && Urn(e.from) && Urn(e.to) && SpelledFields(e) && Complete(e)
                 && (e.ts.Some? ==> TimeField(rfc3339, e.ts.value))
  {
    hide DecodeHex, Urn, TimeField, Spells;
    OptionalSpelled(e.sid, 16);
    OptionalSpelled(e.epub, 32);
    OptionalSpelled(e.nonce, 32);
    OptionalSpelled(e.sig, 64);
    CiphertextSpelled(e);
    BindingSpelled(e.contract);
  }

  lemma OptionalSpelled(value: Option<string>, len: nat)
    ensures OptionalHex(value, len) <==> SpelledIfAny(value, len)
  {
    hide Spells;
    if value.Some? {
      DecodesIffSpells(value.value, len);
    }
  }

  lemma CiphertextSpelled(e: SecureEnvelope)
    ensures e.ct.Some? ==> (|e.ct.value| >= 32 && DecodeHex(e.ct.value).Some? <==> exists n: nat :: n >= 16 && Spells(e.ct.value, n))
  {
    hide Spells;
    if e.ct.Some? {
      forall n: nat ensures Spells(e.ct.value, n) <==> DecodeHex(e.ct.value).Some? && |DecodeHex(e.ct.value).value| == n {
        DecodesIffSpells(e.ct.value, n);
      }
      if DecodeHex(e.ct.value).Some? {
        assert Spells(e.ct.value, |DecodeHex(e.ct.value).value|);
      }
    }
  }

  lemma BindingSpelled(contract: string)
    ensures ContractField(contract) <==> contract == "" || exists digest :: Spells(digest, 32) && contract == "sha256:" + digest
  {
    hide Spells;
    forall digest ensures Spells(digest, 32) <==> FixedHex(digest, 32) {
      DecodesIffSpells(digest, 32);
    }
    if "sha256:" <= contract {
      assert contract == "sha256:" + contract[7..];
    }
    forall digest | contract == "sha256:" + digest ensures contract[7..] == digest {
    }
  }

  /** A name on an envelope: a letter or digit, then letters, digits and dashes, behind the scheme. */
  lemma UrnExact(s: string)
    ensures Urn(s)
            <==> exists first: char, rest: string :: s == "urn:hacp:agent:" + [first] + rest && ('a' <= first <= 'z' || '0' <= first <= '9')
                   && forall i | 0 <= i < |rest| :: 'a' <= rest[i] <= 'z' || '0' <= rest[i] <= '9' || rest[i] == '-'
  {
    if Urn(s) {
      var name := s[15..];
      assert s == "urn:hacp:agent:" + [name[0]] + name[1..];
      forall i | 0 <= i < |name[1..]| ensures UrnNameChar(name[1..][i]) {
        assert name[1..][i] == name[i + 1];
      }
    }
    forall first: char, rest: string | s == "urn:hacp:agent:" + [first] + rest ensures s[15..] == [first] + rest {
    }
  }

  // --------------------------------------------------------- signing inputs

  lemma {:induction false} Utf8Join(a: string, b: string)
    ensures Utf8(a + b) == Utf8(a) + Utf8(b)
  {
    hide Utf8Char;
    if a == "" {
      assert a + b == b;
    } else {
      Utf8Join(a[1..], b);
      assert (a + b)[1..] == a[1..] + b;
    }
  }

  lemma RouteText(kind: Kind, session: string, from: string, to: string)
    ensures Utf8(Label(kind) + session + from + to) == Utf8(Label(kind)) + Route(session, from, to)
  {
    hide Utf8, Label;
    Utf8Join(Label(kind) + session + from, to);
    Utf8Join(Label(kind) + session, from);
    Utf8Join(Label(kind), session);
  }

  /** A field spells these bytes. */
  predicate SpelledBy(value: Option<string>, bytes: Bytes) {
    value == Some(HexText(bytes))
  }

  lemma DecodedSpells(value: Option<string>)
    requires Decoded(value).Success?
    ensures SpelledBy(value, Decoded(value).value)
  {
    HexPairsOfText(value.value);
  }

  /** A hello signs the label, context, sender and receiver as one text, then its key and its nonce. */
  lemma HelloSigns(rfc3339: string -> bool, session: string, e: SecureEnvelope)
    requires HelloInput(rfc3339, session, e).Success?
    ensures var input := HelloInput(rfc3339, session, e).value;
            var n := |input| - 64;
            && n > 0 && input[..n] == Utf8("HACP-SECURE/v1/hello" + session + e.from + e.to)
            && SpelledBy(e.epub, input[n..n + 32]) && SpelledBy(e.nonce, input[n + 32..])
  {
    hide HelloInput, Utf8, Route, HexText;
    HelloParts(rfc3339, session, e);
    var input := HelloInput(rfc3339, session, e).value;
    var n := |input| - 64;
    var x, y := Decoded(e.epub).value, Decoded(e.nonce).value;
    RouteText(Hello, session, e.from, e.to);
    LabelBytes(Hello);
    var text := Utf8(Label(Hello)) + Route(session, e.from, e.to);
    assert input == text + x + y;
    assert input[..n] == text && input[n..n + 32] == x && input[n + 32..] == y;
    DecodedSpells(e.epub);
    DecodedSpells(e.nonce);
  }

  /** An ack signs the label, context, answerer and initiator, then the keys and nonces of the hello and its own. */
  lemma AckSigns(rfc3339: string -> bool, session: string, e: SecureEnvelope, hello: SecureEnvelope)
    requires AckInput(rfc3339, session, e, hello).Success?
    ensures var input := AckInput(rfc3339, session, e, hello).value;
            var n := |input| - 128;
            && n > 0 && input[..n] == Utf8("HACP-SECURE/v1/ack" + session + e.from + e.to)
            && SpelledBy(hello.epub, input[n..n + 32]) && SpelledBy(hello.nonce, input[n + 32..n + 64])
            && SpelledBy(e.epub, input[n + 64..n + 96]) && SpelledBy(e.nonce, input[n + 96..])
  {
    hide AckInput, Utf8, Route, HexText;
    AckParts(rfc3339, session, e, hello);
    var input := AckInput(rfc3339, session, e, hello).value;
    var n := |input| - 128;
    var a, b, c, d := Decoded(hello.epub).value, Decoded(hello.nonce).value, Decoded(e.epub).value, Decoded(e.nonce).value;
    RouteText(Ack, session, e.from, e.to);
    LabelBytes(Ack);
    var text := Utf8(Label(Ack)) + Route(session, e.from, e.to);
    assert input == text + a + b + c + d;
    assert input[..n] == text && input[n..n + 32] == a && input[n + 32..n + 64] == b && input[n + 64..n + 96] == c && input[n + 96..] == d;
    DecodedSpells(hello.epub);
    DecodedSpells(hello.nonce);
    DecodedSpells(e.epub);
    DecodedSpells(e.nonce);
  }

  // ------------------------------------------------ the authenticated header

  /** What a member of this name has to say, when there is one. */
  function Field(e: SecureEnvelope, name: string): Option<Json> {
    if name == "v" then Some(Number(Decimal(e.v)))
    else if name == "kind" then Some(String(match e.kind case Hello => "hello" case Ack => "ack" case Msg => "msg"))
    else if name == "from" then Some(String(e.from))
    else if name == "to" then Some(String(e.to))
    else if name == "contract" then Some(String(e.contract))
    else if name == "sid" then TextValue(e.sid)
    else if name == "seq" then match e.seq_ { case None => None case Some(n) => Some(Number(Decimal(n))) }
    else if name == "epub" then TextValue(e.epub)
    else if name == "nonce" then TextValue(e.nonce)
    else if name == "ts" then TextValue(e.ts)
    else None
  }

  /** The value is an object with exactly the header's fields, each under its name. */
  ghost predicate SaysHeader(w: Json, e: SecureEnvelope) {
    w.Object? && forall name :: Lookup(w.members, name) == Field(e, name)
  }

  lemma FieldsByName(e: SecureEnvelope)
    ensures SaysHeader(HeaderJson(e), e)
  {
    NamesDistinct();
    PresentMembers(NAMES, Values(e));
    PresentFrom(NAMES, Values(e));
    var ms := Present(NAMES, Values(e));
    forall name ensures Lookup(ms, name) == Field(e, name) {
      if i :| 0 <= i < |NAMES| && NAMES[i] == name {
        assert Lookup(ms, NAMES[i]) == Values(e)[i];
        NameAt(e, i);
      } else {
        forall m | m in ms ensures m.key != name {
          assert From(NAMES, Values(e), m);
        }
        LookupAbsent(ms, name);
        NoField(e, name);
      }
    }
  }

  lemma NameAt(e: SecureEnvelope, i: nat)
    requires i < |NAMES|
    ensures Field(e, NAMES[i]) == Values(e)[i]
  {
  }

  lemma NoField(e: SecureEnvelope, name: string)
    requires forall i | 0 <= i < |NAMES| :: NAMES[i] != name
    ensures Field(e, name).None?
  {
    assert NAMES[0] == "v" && NAMES[1] == "kind" && NAMES[2] == "from" && NAMES[3] == "to" && NAMES[4] == "contract";
    assert NAMES[5] == "sid" && NAMES[6] == "seq" && NAMES[7] == "epub" && NAMES[8] == "nonce" && NAMES[9] == "ts";
  }

  lemma AscendingDistinct<T(!new)>(es: seq<Entry<T>>)
    requires Ascending(es)
    ensures DistinctKeys(es)
  {
    forall i, j | 0 <= i < j < |es| ensures es[i].key != es[j].key {
      BytesBeforeStrict(Utf8(es[i].key), Utf8(es[j].key));
    }
  }

  /** What equals a header up to the order of its members says the same. */
  lemma SameSays(v: Json, w: Json, e: SecureEnvelope)
    requires SaysHeader(v, e) && v.Object? && DistinctKeys(v.members) && Same(v, w) && Arranged(w)
    requires forall m | m in v.members :: m.item.Number? || m.item.String?
    ensures SaysHeader(w, e)
  {
    hide Field;
    AscendingDistinct(w.members);
    SameLeaves(v.members, w.members);
    IncludedBothWays(v.members, w.members);
    forall name ensures Lookup(w.members, name) == Lookup(v.members, name) {
      SameLookup(v.members, w.members, name);
    }
  }

  /**
   A message signs its label, then a header text, then the ciphertext; the header text reads
   as an object with the fields of the envelope, each under its own name and nothing else.
   */
  lemma MessageSigns(rfc3339: string -> bool, e: SecureEnvelope) returns (header: string, w: Json, c: Bytes)
    requires MessageInput(rfc3339, e).Success?
    ensures MessageInput(rfc3339, e).value == Utf8("HACP-SECURE/v1/msg" + header) + c
    ensures ReadValue(header) == Some((w, "")) && SaysHeader(w, e) && SpelledBy(e.ct, c)
    ensures AadBytes(rfc3339, e) == Success(Utf8(header))
  {
    hide Canonical, Utf8, HexText, WellFormed, IntegersOnly, ReadValue, Arranged, Same, SaysHeader;
    HeaderWellFormed(e);
    header := HeaderText(e).value;
    c := Decoded(e.ct).value;
    DecodedSpells(e.ct);
    Utf8Join("HACP-SECURE/v1/msg", header);
    w := CanonicalReadsBack(HeaderJson(e), "$");
    FieldsByName(e);
    HeaderLeaves(e);
    SameSays(HeaderJson(e), w, e);
  }

  lemma HeaderLeaves(e: SecureEnvelope)
    ensures DistinctKeys(HeaderJson(e).members) && forall m | m in HeaderJson(e).members :: m.item.Number? || m.item.String?
  {
    NamesDistinct();
    PresentMembers(NAMES, Values(e));
    PresentFrom(NAMES, Values(e));
    forall m | m in HeaderJson(e).members ensures m.item.Number? || m.item.String? {
      assert From(NAMES, Values(e), m);
    }
  }
}
