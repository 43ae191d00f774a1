/**
 Wire envelopes, their shape check and the three byte strings a guardian signs
 (`src/secure/envelope.rs`). The signing inputs run several variable-length fields
 together without separators; the lemmas show that they can still be taken apart.
 */
module Envelope {
  import opened Collections
  import opened Wrappers
  import opened Text
  import opened Secure
  import opened Canon

  datatype Kind = Hello | Ack | Msg

  datatype SecureEnvelope = SecureEnvelope(
    v: byte, kind: Kind, from: string, to: string, contract: string,
    sid: Option<string>, seq_: Option<u64>, epub: Option<string>, nonce: Option<string>,
    sig: Option<string>, ct: Option<string>, ts: Option<string>)

  // ------------------------------------------------------------ shape check

  const URN_PREFIX := "urn:hacp:agent:"

  predicate UrnNameChar(c: char) {
    'a' <= c <= 'z' || '0' <= c <= '9' || c == '-'
  }

  predicate UrnName(name: string) {
    name != "" && name[0] != '-' && forall i | 0 <= i < |name| :: UrnNameChar(name[i])
  }

  predicate Urn(s: string) {
    URN_PREFIX <= s && UrnName(s[|URN_PREFIX|..])
  }

  predicate FixedHex(s: string, len: nat) {
    |s| == 2 * len && AllHex(s)
  }

  predicate OptionalHex(value: Option<string>, len: nat) {
    value.None? || FixedHex(value.value, len)
  }

  predicate ContractField(s: string) {
    s == "" || ("sha256:" <= s && FixedHex(s[7..], 32))
  }

  /** Byte 10 separates date and time; the rest is left to the date library's parser. */
  predicate TimeField(rfc3339: string -> bool, s: string) {
    var bytes := Utf8(s);
    |bytes| > 10 && (bytes[10] == 'T' as int || bytes[10] == 't' as int) && rfc3339(s)
  }

  predicate Header(rfc3339: string -> bool, e: SecureEnvelope) {
    && e.v == 1 && Urn(e.from) && Urn(e.to)
    && ContractField(e.contract)
    && OptionalHex(e.sid, 16)
    && OptionalHex(e.epub, 32)
    && OptionalHex(e.nonce, 32)
    && OptionalHex(e.sig, 64)
    && (e.ct.None? || (|e.ct.value| >= 32 && DecodeHex(e.ct.value).Some?))
    && (e.ts.None? || TimeField(rfc3339, e.ts.value))
    && match e.kind
       case Hello => e.contract == "" && e.epub.Some? && e.nonce.Some?
       case Ack => e.contract == "" && e.epub.Some? && e.nonce.Some? && e.sid.Some?
       case Msg => e.sid.Some? && e.seq_.Some?
  }

  predicate Valid(rfc3339: string -> bool, e: SecureEnvelope) {
    Header(rfc3339, e) && e.sig.Some? && (e.kind.Msg? ==> e.ct.Some?)
  }

  // ------------------------------------------------- the authenticated header

  /** Members as the serializer emits them, without the `sig` and `ct` that are removed. */
  const NAMES: seq<string> := ["v", "kind", "from", "to", "contract", "sid", "seq", "epub", "nonce", "ts"]

  function KindName(kind: Kind): string {
    match kind
    case Hello => "hello"
    case Ack => "ack"
    case Msg => "msg"
  }

  function TextValue(value: Option<string>): Option<Json> {
    match value
    case None => None
    case Some(s) => Some(String(s))
  }

  function Values(e: SecureEnvelope): (r: seq<Option<Json>>)
    ensures |r| == |NAMES|
  {
    [Some(Number(Decimal(e.v))), Some(String(KindName(e.kind))), Some(String(e.from)), Some(String(e.to)),
     Some(String(e.contract)), TextValue(e.sid),
     match e.seq_ case None => None case Some(n) => Some(Number(Decimal(n))),
     TextValue(e.epub), TextValue(e.nonce), TextValue(e.ts)]
  }

  /** Absent members are skipped. */
  function Present(names: seq<string>, values: seq<Option<Json>>): seq<Entry<Json>>
    requires |names| == |values|
  {
    if names == [] then []
    else (if values[0].Some? then [Entry(names[0], values[0].value)] else []) + Present(names[1..], values[1..])
  }

  function HeaderJson(e: SecureEnvelope): Json {
    Object(Present(NAMES, Values(e)))
  }

  function HeaderText(e: SecureEnvelope): Rendering {
    Canonical(HeaderJson(e), "$")
  }

  function Lookup(members: seq<Entry<Json>>, key: string): Option<Json> {
    if members == [] then None
    else if members[0].key == key then Some(members[0].item)
    else Lookup(members[1..], key)
  }

  lemma NamesDistinct()
    ensures NoRepeats(NAMES)
  {
  }

  ghost predicate From(names: seq<string>, values: seq<Option<Json>>, m: Entry<Json>)
    requires |names| == |values|
  {
    exists i | 0 <= i < |names| :: m.key == names[i] && values[i] == Some(m.item)
  }

  lemma {:induction false} PresentFrom(names: seq<string>, values: seq<Option<Json>>)
    requires |names| == |values|
    ensures forall m | m in Present(names, values) :: From(names, values, m)
  {
    if names != [] {
      PresentFrom(names[1..], values[1..]);
      forall m | m in Present(names, values) ensures From(names, values, m) {
        if m in Present(names[1..], values[1..]) {
          var k :| 0 <= k < |names[1..]| && m.key == names[1..][k] && values[1..][k] == Some(m.item);
          assert names[k + 1] == m.key && values[k + 1] == Some(m.item);
        } else {
          assert m.key == names[0] && values[0] == Some(m.item);
        }
      }
    }
  }

  /** A name is found with its value, and no name occurs twice. */
  lemma {:induction false} PresentMembers(names: seq<string>, values: seq<Option<Json>>)
    requires |names| == |values| && NoRepeats(names)
    ensures DistinctKeys(Present(names, values))
    ensures forall i | 0 <= i < |names| :: Lookup(Present(names, values), names[i]) == values[i]
  {
    if names != [] {
      var rest := Present(names[1..], values[1..]);
      PresentMembers(names[1..], values[1..]);
      PresentFrom(names[1..], values[1..]);
      forall m | m in rest ensures m.key != names[0] {
        assert From(names[1..], values[1..], m);
      }
      LookupAbsent(rest, names[0]);
      assert values[0].Some? ==> Present(names, values)[1..] == rest && Present(names, values)[0].key == names[0];
      assert values[0].None? ==> Present(names, values) == rest;
      forall i | 1 <= i < |names| ensures Lookup(Present(names, values), names[i]) == values[i] {
        assert names[i] == names[1..][i - 1] && values[i] == values[1..][i - 1];
      }
    }
  }

  lemma {:induction false} LookupAbsent(members: seq<Entry<Json>>, key: string)
    requires forall m | m in members :: m.key != key
    ensures Lookup(members, key) == None
  {
    if members != [] {
      assert members[0] in members;
      LookupAbsent(members[1..], key);
    }
  }

  /** In objects that are equal up to order, a name stands for the same value. */
  lemma {:induction false} LookupMember(members: seq<Entry<Json>>, key: string)
    ensures match Lookup(members, key)
            case Some(x) => exists i | 0 <= i < |members| :: members[i] == Entry(key, x)
            case None => forall m | m in members :: m.key != key
  {
    if members != [] && members[0].key != key {
      LookupMember(members[1..], key);
      if Lookup(members[1..], key).Some? {
        var k :| 0 <= k < |members[1..]| && members[1..][k] == Entry(key, Lookup(members[1..], key).value);
        assert members[k + 1] == Entry(key, Lookup(members, key).value);
      }
    }
  }

  lemma HeaderWellFormed(e: SecureEnvelope)
    ensures WellFormed(HeaderJson(e)) && IntegersOnly(HeaderJson(e)) && HeaderText(e).Success?
  {
    hide Canonical;
    NamesDistinct();
    PresentMembers(NAMES, Values(e));
    PresentFrom(NAMES, Values(e));
    var ms := Present(NAMES, Values(e));
    forall i | 0 <= i < |ms| ensures WellFormed(ms[i].item) && IntegersOnly(ms[i].item) {
      assert From(NAMES, Values(e), ms[i]);
    }
    CanonicalIffIntegersOnly(HeaderJson(e), "$");
  }

  /** Equal up to member order means equal in every header field. */
  lemma SameHeader(e: SecureEnvelope, f: SecureEnvelope)
    requires Same(HeaderJson(e), HeaderJson(f))
    ensures e.(sig := f.sig, ct := f.ct) == f
  {
    NamesDistinct();
    PresentMembers(NAMES, Values(e));
    PresentMembers(NAMES, Values(f));
    SameValues(e, f);
    DecimalInjective(e.v, f.v);
    var x, y := Values(e), Values(f);
    assert x[0] == y[0] && x[1] == y[1] && x[2] == y[2] && x[3] == y[3] && x[4] == y[4];
    assert x[5] == y[5] && x[6] == y[6] && x[7] == y[7] && x[8] == y[8] && x[9] == y[9];
    if e.seq_.Some? {
      DecimalInjective(e.seq_.value, f.seq_.value);
    }
  }

  lemma SameValues(e: SecureEnvelope, f: SecureEnvelope)
    requires Same(HeaderJson(e), HeaderJson(f))
    ensures Values(e) == Values(f)
  {
    hide Canonical;
    NamesDistinct();
    PresentMembers(NAMES, Values(e));
    PresentMembers(NAMES, Values(f));
    var ms, ns := Present(NAMES, Values(e)), Present(NAMES, Values(f));
    PresentFrom(NAMES, Values(e));
    forall m | m in ms ensures m.item.Number? || m.item.String? {
      assert From(NAMES, Values(e), m);
    }
    SameLeaves(ms, ns);
    IncludedBothWays(ms, ns);
    forall k | 0 <= k < |NAMES| ensures Values(e)[k] == Values(f)[k] {
      SameLookup(ms, ns, NAMES[k]);
    }
  }

  /** Strings and numbers are compared literally. */
  lemma SameLeaves(ms: seq<Entry<Json>>, ns: seq<Entry<Json>>)
    requires Same(Object(ms), Object(ns))
    requires forall m | m in ms :: m.item.Number? || m.item.String?
    ensures forall i | 0 <= i < |ms| :: ms[i] in ns
  {
    forall i | 0 <= i < |ms| ensures ms[i] in ns {
      assert ms[i] in ms && HasMember(ns, ms[i].key, ms[i].item);
      var j :| 0 <= j < |ns| && ms[i].key == ns[j].key && Same(ms[i].item, ns[j].item);
      assert ms[i] == ns[j];
    }
  }

  lemma SameLookup(ms: seq<Entry<Json>>, ns: seq<Entry<Json>>, key: string)
    requires DistinctKeys(ms) && DistinctKeys(ns) && forall m :: m in ms <==> m in ns
    ensures Lookup(ms, key) == Lookup(ns, key)
  {
    LookupCarries(ms, ns, key);
    LookupCarries(ns, ms, key);
  }

  lemma LookupCarries(ms: seq<Entry<Json>>, ns: seq<Entry<Json>>, key: string)
    requires DistinctKeys(ms) && DistinctKeys(ns) && forall m | m in ms :: m in ns
    ensures Lookup(ms, key).Some? ==> Lookup(ns, key) == Lookup(ms, key)
  {
    LookupMember(ms, key);
    LookupMember(ns, key);
    if Lookup(ms, key).Some? {
      assert Entry(key, Lookup(ms, key).value) in ms;
      assert Entry(key, Lookup(ms, key).value) in ns;
    }
  }

  // --------------------------------------------------------- signing inputs

  function Label(kind: Kind): string {
    match kind
    case Msg => "HACP-SECURE/v1/msg"
    case Hello => "HACP-SECURE/v1/hello"
    case Ack => "HACP-SECURE/v1/ack"
  }

  function Labelled(kind: Kind, rest: Bytes): Bytes {
    Utf8(Label(kind)) + rest
  }

  function Checked(ok: bool): Result<Unit, SecureError> {
    if ok then Success(Unit) else Failure(SchemaViolation)
  }

  function Decoded(s: Option<string>): Result<Bytes, SecureError> {
    if s.Some? && DecodeHex(s.value).Some? then Success(DecodeHex(s.value).value) else Failure(SchemaViolation)
  }

  function AadBytes(rfc3339: string -> bool, e: SecureEnvelope): Result<Bytes, SecureError> {
    if Header(rfc3339, e) && HeaderText(e).Success? then Success(Utf8(HeaderText(e).value)) else Failure(SchemaViolation)
  }

  function MessageInput(rfc3339: string -> bool, e: SecureEnvelope): Result<Bytes, SecureError> {
    var _ :- Checked(e.kind.Msg?);
    var aad :- AadBytes(rfc3339, e);
    var ct :- Decoded(e.ct);
    Success(Labelled(Msg, aad + ct))
  }

  function HelloInput(rfc3339: string -> bool, session: string, e: SecureEnvelope): Result<Bytes, SecureError> {
    var _ :- Checked(Header(rfc3339, e) && e.kind.Hello?);
    var epub :- Decoded(e.epub);
    var nonce :- Decoded(e.nonce);
    Success(Labelled(Hello, Route(session, e.from, e.to) + (epub + nonce)))
  }

  function AckInput(rfc3339: string -> bool, session: string, e: SecureEnvelope, hello: SecureEnvelope)
    : Result<Bytes, SecureError>
  {
    var _ :- Checked(Header(rfc3339, e) && Header(rfc3339, hello) && e.kind.Ack? && hello.kind.Hello?
                     && e.from == hello.to && e.to == hello.from);
    var helloEpub :- Decoded(hello.epub);
    var helloNonce :- Decoded(hello.nonce);
    var epub :- Decoded(e.epub);
    var nonce :- Decoded(e.nonce);
    Success(Labelled(Ack, Route(session, e.from, e.to) + (helloEpub + (helloNonce + (epub + nonce)))))
  }

  /** Context and both names, with nothing between them. */
  function Route(session: string, from: string, to: string): Bytes {
    Utf8(session) + Utf8(from) + Utf8(to)
  }

  // -------------------------------------------------------- taking them apart

  lemma SplitAt(a: Bytes, x: Bytes, b: Bytes, y: Bytes)
    requires a + x == b + y && (|a| == |b| || |x| == |y|)
    ensures a == b && x == y
  {
    assert a == (a + x)[..|a|] == (b + y)[..|b|] == b;
    assert x == (a + x)[|a|..] == (b + y)[|b|..] == y;
  }

  /** A name's bytes hold one colon from position 14 on: the one closing the scheme. */
  lemma UrnBytes(u: string)
    requires Urn(u)
    ensures |Utf8(u)| > 15 && Utf8(u)[14] == 58 && forall i | 15 <= i < |Utf8(u)| :: Utf8(u)[i] != 58
  {
    forall i | 0 <= i < |u| ensures u[i] as int < 0x80 && (i >= 15 ==> u[i] != ':') {
      if i < 15 {
        assert u[i] == URN_PREFIX[i];
      } else {
        assert u[i] == u[15..][i - 15];
      }
    }
    assert u[14] == URN_PREFIX[14] == ':';
    Utf8Ascii(u);
  }

  /** Where a name ends the text, its beginning is found from its last colon. */
  lemma UrnSuffix(s: Bytes, u: string, t: Bytes, w: string)
    requires Urn(u) && Urn(w) && s + Utf8(u) == t + Utf8(w)
    ensures s == t && u == w
  {
    UrnBytes(u);
    UrnBytes(w);
    var x, y := Utf8(u), Utf8(w);
    var all := s + x;
    assert all[|s| + 14] == x[14];
    assert (t + y)[|t| + 14] == y[14];
    assert forall i | |s| + 15 <= i < |all| :: all[i] == x[i - |s|];
    assert forall i | |t| + 15 <= i < |all| :: all[i] == y[i - |t|];
    assert |s| == |t|;
    SplitAt(s, x, t, y);
    Utf8Injective(u, w);
  }

  lemma RouteInjective(s: string, f: string, t: string, s': string, f': string, t': string)
    requires Urn(f) && Urn(t) && Urn(f') && Urn(t') && Route(s, f, t) == Route(s', f', t')
    ensures s == s' && f == f' && t == t'
  {
    UrnSuffix(Utf8(s) + Utf8(f), t, Utf8(s') + Utf8(f'), t');
    UrnSuffix(Utf8(s), f, Utf8(s'), f');
    Utf8Injective(s, s');
  }

  lemma FixedDecoded(s: Option<string>, len: nat)
    requires s.Some? && FixedHex(s.value, len)
    ensures Decoded(s).Success? && |Decoded(s).value| == len
  {
  }

  lemma DecodedInjective(s: Option<string>, t: Option<string>)
    requires Decoded(s).Success? && Decoded(s) == Decoded(t)
    ensures s == t
  {
    DecodeHexInjective(s.value, t.value);
  }

  lemma LabelBytes(kind: Kind)
    ensures |Utf8(Label(kind))| > 15
    ensures Utf8(Label(kind))[15] == match kind case Msg => 'm' as int case Hello => 'h' as int case Ack => 'a' as int
  {
    assert |Label(kind)| > 15;
    assert forall i | 0 <= i < |Label(kind)| :: Label(kind)[i] as int < 0x80;
    Utf8Ascii(Label(kind));
  }

  /** The three labels part ways at byte 15. */
  lemma LabelledInjective(kind: Kind, x: Bytes, kind': Kind, y: Bytes)
    requires Labelled(kind, x) == Labelled(kind', y)
    ensures kind == kind' && x == y
  {
    LabelBytes(kind);
    LabelBytes(kind');
    assert Labelled(kind, x)[15] == Utf8(Label(kind))[15];
    assert Labelled(kind', y)[15] == Utf8(Label(kind'))[15];
    SplitAt(Utf8(Label(kind)), x, Utf8(Label(kind')), y);
  }

  lemma HelloParts(rfc3339: string -> bool, s: string, e: SecureEnvelope)
    requires HelloInput(rfc3339, s, e).Success?
    ensures Urn(e.from) && Urn(e.to) && Decoded(e.epub).Success? && Decoded(e.nonce).Success?
    ensures var x, y := Decoded(e.epub).value, Decoded(e.nonce).value;
            |x| == |y| == 32
            && HelloInput(rfc3339, s, e).value == Labelled(Hello, Route(s, e.from, e.to) + (x + y))
  {
    FixedDecoded(e.epub, 32);
    FixedDecoded(e.nonce, 32);
  }

  lemma HelloInputInjective(rfc3339: string -> bool, s: string, e: SecureEnvelope, s': string, e': SecureEnvelope)
    requires HelloInput(rfc3339, s, e).Success? && HelloInput(rfc3339, s', e').Success?
    ensures HelloInput(rfc3339, s, e) == HelloInput(rfc3339, s', e')
            <==> s == s' && e.from == e'.from && e.to == e'.to && e.epub == e'.epub && e.nonce == e'.nonce
  {
    HelloParts(rfc3339, s, e);
    HelloParts(rfc3339, s', e');
    if HelloInput(rfc3339, s, e) == HelloInput(rfc3339, s', e') {
      var x, y := Decoded(e.epub).value, Decoded(e.nonce).value;
      var x', y' := Decoded(e'.epub).value, Decoded(e'.nonce).value;
      var r, r' := Route(s, e.from, e.to), Route(s', e'.from, e'.to);
      LabelledInjective(Hello, r + (x + y), Hello, r' + (x' + y'));
      SplitAt(r, x + y, r', x' + y');
      SplitAt(x, y, x', y');
      RouteInjective(s, e.from, e.to, s', e'.from, e'.to);
      DecodedInjective(e.epub, e'.epub);
      DecodedInjective(e.nonce, e'.nonce);
    }
  }

  /** The session id an ack announces is not signed: it follows from the key agreement. */
  lemma AckInputInjective(
      rfc3339: string -> bool,
      s: string, e: SecureEnvelope, h: SecureEnvelope, s': string, e': SecureEnvelope, h': SecureEnvelope)
    requires AckInput(rfc3339, s, e, h).Success? && AckInput(rfc3339, s', e', h').Success?
    ensures AckInput(rfc3339, s, e, h) == AckInput(rfc3339, s', e', h')
            <==> s == s' && e.from == e'.from && e.to == e'.to && h.epub == h'.epub && h.nonce == h'.nonce
                 && e.epub == e'.epub && e.nonce == e'.nonce
  {
    AckParts(rfc3339, s, e, h);
    AckParts(rfc3339, s', e', h');
    if AckInput(rfc3339, s, e, h) == AckInput(rfc3339, s', e', h') {
      SplitAck(Route(s, e.from, e.to), Route(s', e'.from, e'.to),
               Decoded(h.epub).value, Decoded(h.nonce).value, Decoded(e.epub).value, Decoded(e.nonce).value,
               Decoded(h'.epub).value, Decoded(h'.nonce).value, Decoded(e'.epub).value, Decoded(e'.nonce).value);
      RouteInjective(s, e.from, e.to, s', e'.from, e'.to);
      DecodedInjective(h.epub, h'.epub); DecodedInjective(h.nonce, h'.nonce);
      DecodedInjective(e.epub, e'.epub); DecodedInjective(e.nonce, e'.nonce);
    }
  }

  lemma AckParts(rfc3339: string -> bool, s: string, e: SecureEnvelope, h: SecureEnvelope)
    requires AckInput(rfc3339, s, e, h).Success?
    ensures Urn(e.from) && Urn(e.to)
    ensures Decoded(h.epub).Success? && Decoded(h.nonce).Success? && Decoded(e.epub).Success? && Decoded(e.nonce).Success?
    ensures var a, b, c, d := Decoded(h.epub).value, Decoded(h.nonce).value, Decoded(e.epub).value, Decoded(e.nonce).value;
            |a| == |b| == |c| == |d| == 32
            && AckInput(rfc3339, s, e, h).value == Labelled(Ack, Route(s, e.from, e.to) + (a + (b + (c + d))))
  {
    FixedDecoded(h.epub, 32);
    FixedDecoded(h.nonce, 32);
    FixedDecoded(e.epub, 32);
    FixedDecoded(e.nonce, 32);
  }

  lemma SplitAck(r: Bytes, r': Bytes, a: Bytes, b: Bytes, c: Bytes, d: Bytes,
                 a': Bytes, b': Bytes, c': Bytes, d': Bytes)
    requires |a| == |a'| == |b| == |b'| == |c| == |c'| == |d| == |d'| == 32
    requires Labelled(Ack, r + (a + (b + (c + d)))) == Labelled(Ack, r' + (a' + (b' + (c' + d'))))
    ensures r == r' && a == a' && b == b' && c == c' && d == d'
  {
    LabelledInjective(Ack, r + (a + (b + (c + d))), Ack, r' + (a' + (b' + (c' + d'))));
    SplitAt(r, a + (b + (c + d)), r', a' + (b' + (c' + d')));
    SplitAt(a, b + (c + d), a', b' + (c' + d'));
    SplitAt(b, c + d, b', c' + d');
    SplitAt(c, d, c', d');
  }

  /** An object's text ends where its bytes say, whatever bytes follow it. */
  lemma ObjectBytesPrefixCode(a: Json, b: Json, s: Bytes, t: Bytes)
    requires WellFormed(a) && WellFormed(b) && a.Object? && b.Object?
    requires Canonical(a, "$").Success? && Canonical(b, "$").Success?
    requires Utf8(Canonical(a, "$").value) + s == Utf8(Canonical(b, "$").value) + t
    ensures Same(a, b) && s == t
  {
    hide Same, WellFormed, Canonical, Utf8;
    var x, y := Canonical(a, "$").value, Canonical(b, "$").value;
    if |Utf8(x)| <= |Utf8(y)| {
      ShorterIsPrefix(Utf8(x), s, Utf8(y), t);
      Utf8Prefix(x, y);
      assert x + y[|x|..] == y + "";
      ObjectPrefixCode(a, "$", b, "$", y[|x|..], "");
    } else {
      ShorterIsPrefix(Utf8(y), t, Utf8(x), s);
      Utf8Prefix(y, x);
      assert x + "" == y + x[|y|..];
      ObjectPrefixCode(a, "$", b, "$", "", x[|y|..]);
    }
    SplitAt(Utf8(x), s, Utf8(y), t);
  }

  lemma ShorterIsPrefix(a: Bytes, x: Bytes, b: Bytes, y: Bytes)
    requires a + x == b + y && |a| <= |b|
    ensures a <= b
  {
    assert forall i | 0 <= i < |a| :: a[i] == (a + x)[i] && b[i] == (b + y)[i];
  }

  /** A message signature covers every field but itself. */
  lemma MessageInputInjective(rfc3339: string -> bool, e: SecureEnvelope, f: SecureEnvelope)
    requires MessageInput(rfc3339, e).Success? && MessageInput(rfc3339, f).Success?
    ensures MessageInput(rfc3339, e) == MessageInput(rfc3339, f) ==> e.(sig := f.sig) == f
  {
    if MessageInput(rfc3339, e) == MessageInput(rfc3339, f) {
      var x, y := AadBytes(rfc3339, e).value, AadBytes(rfc3339, f).value;
      var s, t := Decoded(e.ct).value, Decoded(f.ct).value;
      LabelledInjective(Msg, x + s, Msg, y + t);
      HeaderWellFormed(e);
      HeaderWellFormed(f);
      ObjectBytesPrefixCode(HeaderJson(e), HeaderJson(f), s, t);
      SameHeader(e, f);
      DecodedInjective(e.ct, f.ct);
    }
  }

  /** Nothing else an envelope carries enters the signature: the copy with another signature signs alike. */
  lemma MessageInputIgnoresSignature(rfc3339: string -> bool, e: SecureEnvelope, f: SecureEnvelope)
    requires MessageInput(rfc3339, e).Success? && MessageInput(rfc3339, f).Success? && e.(sig := f.sig) == f
    ensures MessageInput(rfc3339, e) == MessageInput(rfc3339, f)
  {
    assert Values(e) == Values(f);
  }

  /** No signature serves two purposes. */
  lemma SigningInputsDisjoint(
      rfc3339: string -> bool, m: SecureEnvelope, s: string, h: SecureEnvelope,
      s': string, a: SecureEnvelope, h': SecureEnvelope)
    ensures MessageInput(rfc3339, m).Success? ==> MessageInput(rfc3339, m) != HelloInput(rfc3339, s, h)
    ensures MessageInput(rfc3339, m).Success? ==> MessageInput(rfc3339, m) != AckInput(rfc3339, s', a, h')
    ensures HelloInput(rfc3339, s, h).Success? ==> HelloInput(rfc3339, s, h) != AckInput(rfc3339, s', a, h')
  {
    if MessageInput(rfc3339, m).Success? {
      InputLabel(Msg, AadBytes(rfc3339, m).value + Decoded(m.ct).value);
    }
    if HelloInput(rfc3339, s, h).Success? {
      HelloParts(rfc3339, s, h);
      InputLabel(Hello, Route(s, h.from, h.to) + (Decoded(h.epub).value + Decoded(h.nonce).value));
    }
    if AckInput(rfc3339, s', a, h').Success? {
      AckParts(rfc3339, s', a, h');
      InputLabel(Ack, Route(s', a.from, a.to)
                      + (Decoded(h'.epub).value + (Decoded(h'.nonce).value + (Decoded(a.epub).value + Decoded(a.nonce).value))));
    }
  }

  lemma InputLabel(kind: Kind, rest: Bytes)
    ensures |Labelled(kind, rest)| > 15
    ensures Labelled(kind, rest)[15] == match kind case Msg => 'm' as int case Hello => 'h' as int case Ack => 'a' as int
  {
    LabelBytes(kind);
  }

  // ------------------------------------------------- building them in place

  function Joined(parts: seq<Bytes>): Bytes {
    if parts == [] then [] else Joined(parts[..|parts| - 1]) + parts[|parts| - 1]
  }

  method Append(start: Bytes, parts: seq<Bytes>) returns (bytes: Bytes)
    ensures bytes == start + Joined(parts)
  {
    bytes := start;
    for i := 0 to |parts|
      invariant bytes == start + Joined(parts[..i])
    {
      assert parts[..i + 1][..i] == parts[..i];
      bytes := bytes + parts[i];
    }
    assert parts[..|parts|] == parts;
  }

  lemma JoinedThree(a: Bytes, b: Bytes, c: Bytes)
    ensures Joined([a, b, c]) == a + b + c
  {
    assert [a, b, c][..2] == [a, b] && [a, b][..1] == [a] && [a][..0] == [];
    assert Joined([a]) == Joined([]) + a == a;
  }

  lemma JoinedFour(a: Bytes, b: Bytes, c: Bytes, d: Bytes)
    ensures Joined([a, b, c, d]) == a + b + c + d
  {
    assert [a, b, c, d][..3] == [a, b, c];
    JoinedThree(a, b, c);
  }

  lemma Regroup(start: Bytes, route: Bytes, a: Bytes, b: Bytes, c: Bytes, d: Bytes)
    ensures start + route + (a + b + c + d) == start + (route + (a + (b + (c + d))))
  {
  }

  lemma RegroupTwo(start: Bytes, route: Bytes, a: Bytes, b: Bytes)
    ensures start + route + a + b == start + (route + (a + b))
  {
  }

  method MessageSigningInput(rfc3339: string -> bool, e: SecureEnvelope) returns (r: Result<Bytes, SecureError>)
    ensures r == MessageInput(rfc3339, e)
  {
    hide AadBytes, Utf8, Label, DecodeHex;
    if !e.kind.Msg? {
      return Failure(SchemaViolation);
    }
    var bytes := Utf8(Label(Msg));
    var aad :- AadBytes(rfc3339, e);
    bytes := bytes + aad;
    var ct :- Decoded(e.ct);
    bytes := bytes + ct;
    assert bytes == Labelled(Msg, aad + ct);
    r := Success(bytes);
  }

  method HelloSigningInput(rfc3339: string -> bool, session: string, e: SecureEnvelope) returns (r: Result<Bytes, SecureError>)
    ensures r == HelloInput(rfc3339, session, e)
  {
    hide Header, Utf8, Label, DecodeHex, Joined;
    if !Header(rfc3339, e) || !e.kind.Hello? {
      return Failure(SchemaViolation);
    }
    var start := Utf8(Label(Hello));
    var bytes := Append(start, [Utf8(session), Utf8(e.from), Utf8(e.to)]);
    JoinedThree(Utf8(session), Utf8(e.from), Utf8(e.to));
    var epub :- Decoded(e.epub);
    bytes := bytes + epub;
    var nonce :- Decoded(e.nonce);
    bytes := bytes + nonce;
    RegroupTwo(start, Route(session, e.from, e.to), epub, nonce);
    r := Success(bytes);
  }

  method AckSigningInput(rfc3339: string -> bool, session: string, e: SecureEnvelope, hello: SecureEnvelope)
    returns (r: Result<Bytes, SecureError>)
    ensures r == AckInput(rfc3339, session, e, hello)
  {
    hide Header, Utf8, Label, DecodeHex, Joined;
    if !Header(rfc3339, e) || !Header(rfc3339, hello) || !e.kind.Ack? || !hello.kind.Hello?
       || e.from != hello.to || e.to != hello.from {
      return Failure(SchemaViolation);
    }
    var start := Utf8(Label(Ack));
    var bytes := Append(start, [Utf8(session), Utf8(e.from), Utf8(e.to)]);
    JoinedThree(Utf8(session), Utf8(e.from), Utf8(e.to));
    var helloEpub :- Decoded(hello.epub);
    var helloNonce :- Decoded(hello.nonce);
    var epub :- Decoded(e.epub);
    var nonce :- Decoded(e.nonce);
    bytes := Append(bytes, [helloEpub, helloNonce, epub, nonce]);
    JoinedFour(helloEpub, helloNonce, epub, nonce);
    Regroup(start, Route(session, e.from, e.to), helloEpub, helloNonce, epub, nonce);
    r := Success(bytes);
  }
}
