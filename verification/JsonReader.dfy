/**
 A reader of JSON, written down on its own, and what it finds in canonical texts
 (`src/v2/canon.rs`): the value that was printed, with the members of every object in
 ascending order of their keys.
 */
module JsonReader {
  import opened Wrappers
  import opened Text
  import opened Canon

  type Read<T> = Option<(T, string)>   // what was read, and the rest of the text

  // ------------------------------------------------------------- the reader

  predicate FourHex(t: string) {
    |t| >= 4 && forall i | 0 <= i < 4 :: IsHexDigit(t[i])
  }

  function HexCode(t: string): int
    requires FourHex(t)
  {
    0x1000 * HexValue(t[0]) + 0x100 * HexValue(t[1]) + 0x10 * HexValue(t[2]) + HexValue(t[3])
  }

  /** The characters up to the closing quote. */
  function ReadString(t: string): (r: Read<string>)
    ensures r.Some? ==> |r.value.1| < |t|
    decreases |t|
  {
    if t == "" then None
    else if t[0] == '"' then Some(("", t[1..]))
    else if t[0] == '\\' then
      if |t| < 2 then None
      else if t[1] == '"' || t[1] == '\\' then Prefixed(t[1], ReadString(t[2..]))
      else if t[1] == 'u' && FourHex(t[2..]) && HexCode(t[2..]) < 0xD800 then Prefixed(HexCode(t[2..]) as char, ReadString(t[6..]))
      else None
    else if t[0] as int < 0x20 then None
    else Prefixed(t[0], ReadString(t[1..]))
  }

  function Prefixed(c: char, r: Read<string>): Read<string> {
    match r
    case None => None
    case Some((s, rest)) => Some(([c] + s, rest))
  }

  /** The longest run of characters that numbers are made of. */
  function NumberLength(t: string): (n: nat)
    ensures n <= |t|
  {
    if t == "" || !NumberChar(t[0]) then 0 else 1 + NumberLength(t[1..])
  }

  function ReadValue(t: string): (r: Read<Json>)
    ensures r.Some? ==> |r.value.1| < |t|
    decreases |t|, 0
  {
    if t == "" then None
    else if "null" <= t then Some((Null, t[4..]))
    else if "true" <= t then Some((Bool(true), t[4..]))
    else if "false" <= t then Some((Bool(false), t[5..]))
    else if t[0] == '"' then
      match ReadString(t[1..])
      case None => None
      case Some((s, rest)) => Some((String(s), rest))
    else if t[0] == '[' then
      if |t| >= 2 && t[1] == ']' then Some((Array([]), t[2..]))
      else
        match ReadItems(t[1..])
        case None => None
        case Some((items, rest)) => Some((Array(items), rest))
    else if t[0] == '{' then
      if |t| >= 2 && t[1] == '}' then Some((Object([]), t[2..]))
      else
        match ReadMembers(t[1..])
        case None => None
        case Some((members, rest)) => Some((Object(members), rest))
    else
      var n := NumberLength(t);
      if n == 0 then None else Some((Number(t[..n]), t[n..]))
  }

  function ReadItems(t: string): (r: Read<seq<Json>>)
    ensures r.Some? ==> |r.value.1| < |t|
    decreases |t|, 1
  {
    match ReadValue(t)
    case None => None
    case Some((v, rest)) =>
      if rest == "" then None
      else if rest[0] == ']' then Some(([v], rest[1..]))
      else if rest[0] == ',' then
        match ReadItems(rest[1..])
        case None => None
        case Some((vs, rest')) => Some(([v] + vs, rest'))
      else None
  }

  function ReadMembers(t: string): (r: Read<seq<Entry<Json>>>)
    ensures r.Some? ==> |r.value.1| < |t|
    decreases |t|, 1
  {
    if t == "" || t[0] != '"' then None
    else
      match ReadString(t[1..])
      case None => None
      case Some((key, after)) =>
        if after == "" || after[0] != ':' then None
        else
          match ReadValue(after[1..])
          case None => None
          case Some((v, rest)) =>
            if rest == "" then None
            else if rest[0] == '}' then Some(([Entry(key, v)], rest[1..]))
            else if rest[0] == ',' then
              match ReadMembers(rest[1..])
              case None => None
              case Some((ms, rest')) => Some(([Entry(key, v)] + ms, rest'))
            else None
  }

  // ------------------------------------------------------------ the strings

  /** One character of a string, written as it must be and read as it was. */
  lemma ReadEscaped(c: char, t: string)
    ensures ReadString(EscapeChar(c) + t) == Prefixed(c, ReadString(t))
  {
    var x := EscapeChar(c) + t;
    if c == '"' || c == '\\' {
      assert x[0] == '\\' && x[1] == c && x[2..] == t;
    } else if c as int < 0x20 {
      assert x[0] == '\\' && x[1] == 'u' && x[6..] == t;
      assert x[2..][0] == '0' && x[2..][1] == '0' && x[2..][2] == HexDigit(c as int / 16) && x[2..][3] == HexDigit(c as int % 16);
      assert FourHex(x[2..]) && HexCode(x[2..]) == c as int;
    } else {
      assert x[0] == c && x[1..] == t;
    }
  }

  lemma {:induction false} ReadEscapes(s: string, t: string)
    ensures ReadString(Escape(s) + "\"" + t) == Some((s, t))
  {
    if s == "" {
      assert Escape(s) + "\"" + t == "\"" + t;
    } else {
      ReadEscapes(s[1..], t);
      assert Escape(s) + "\"" + t == EscapeChar(s[0]) + (Escape(s[1..]) + "\"" + t);
      ReadEscaped(s[0], Escape(s[1..]) + "\"" + t);
      assert [s[0]] + s[1..] == s;
    }
  }

  /** Only the quote, the backslash and the characters below space are escaped, each in one way. */
  lemma EscapesExactly(c: char)
    ensures EscapeChar(c) == [c] <==> c != '"' && c != '\\' && c >= ' '
    ensures c == '"' || c == '\\' ==> EscapeChar(c) == ['\\', c]
    ensures c < ' ' ==> |EscapeChar(c)| == 6 && EscapeChar(c)[..4] == "\\u00" && FourHex(EscapeChar(c)[2..])
                        && HexCode(EscapeChar(c)[2..]) == c as int
  {
  }

  // ------------------------------------------------------------ the numbers

  lemma {:induction false} NumberRun(text: string, t: string)
    requires (forall i | 0 <= i < |text| :: NumberChar(text[i])) && Stops(t)
    ensures NumberLength(text + t) == |text|
  {
    if text == "" {
      assert text + t == t;
    } else {
      NumberRun(text[1..], t);
      assert (text + t)[1..] == text[1..] + t;
    }
  }

  // ------------------------------------------------------------- the values

  /** The members of every object in it are in ascending order of their keys. */
  predicate Arranged(v: Json) {
    match v
    case Array(items) => forall i | 0 <= i < |items| :: Arranged(items[i])
    case Object(members) => Ascending(members) && forall i | 0 <= i < |members| :: Arranged(members[i].item)
    case _ => true
  }

  /** This is the value that was printed, with its members put in order. */
  ghost predicate Restores(v: Json, w: Json) {
    Same(v, w) && Arranged(w)
  }

  /** Reading the text of a value, whatever follows it, gives the value back. */
  lemma {:induction false} ReadBack(v: Json, p: string, t: string) returns (w: Json)
    requires WellFormed(v) && Canonical(v, p).Success? && (v.Number? ==> Stops(t))
    ensures ReadValue(Canonical(v, p).value + t) == Some((w, t)) && Restores(v, w)
    decreases v, 1, 0
  {
    hide Items, Fields, Rendered, SortByKey, Same, ReadItems, ReadMembers, ReadString;
    var x := Canonical(v, p).value;
    Opening(v, p);
    HeadOf(x, t);
    match v
    case Null =>
      assert "null" + t == x + t && (x + t)[4..] == t;
      w := v;
      SimpleRestored(v);
    case Bool(b) =>
      assert (x + t)[|x|..] == t;
      assert x <= x + t;
      w := v;
      SimpleRestored(v);
    case Number(text) =>
      NumberRun(text, t);
      NoWord(text, t);
      assert (x + t)[..|text|] == text && (x + t)[|text|..] == t;
      w := v;
      SimpleRestored(v);
    case String(s) =>
      ReadEscapes(s, t);
      assert (x + t)[1..] == Escape(s) + "\"" + t;
      w := v;
      SimpleRestored(v);
    case Array(items) => w := ReadBackArray(v, p, t);
    case Object(members) => w := ReadBackObject(v, p, t);
  }

  lemma SimpleRestored(v: Json)
    requires !v.Array? && !v.Object?
    ensures Restores(v, v)
  {
  }

  lemma NoWord(text: string, t: string)
    requires text != "" && NumberChar(text[0])
    ensures !("null" <= text + t) && !("true" <= text + t) && !("false" <= text + t)
    ensures (text + t)[0] != '"' && (text + t)[0] != '[' && (text + t)[0] != '{'
  {
    assert (text + t)[0] == text[0];
  }

  lemma {:induction false} ReadBackArray(v: Json, p: string, t: string) returns (w: Json)
    requires WellFormed(v) && Canonical(v, p).Success? && v.Array?
    ensures ReadValue(Canonical(v, p).value + t) == Some((w, t)) && Restores(v, w)
    decreases v, 0, |v.items| + 1
  {
    hide Same, ReadItems, ReadMembers, ReadString;
    var x := Canonical(v, p).value + t;
    var body := Items(v.items, p, 0).value;
    assert v.items[0..] == v.items;
    assert x == "[" + body + "]" + t && x[0] == '[' && x[1..] == body + "]" + t;
    if v.items == [] {
      assert x[1] == ']' && x[2..] == t;
      w := Array([]);
      EmptyRestored(v, w);
    } else {
      ItemsOpening(v, p, 0, t);
      assert x[1] == (body + "]" + t)[0];
      var ws := ReadBackItems(v, p, 0, t);
      w := Array(ws);
      ArrayRestored(v, w);
    }
  }

  lemma EmptyRestored(v: Json, w: Json)
    requires (v.Array? && v.items == [] && w == Array([])) || (v.Object? && v.members == [] && w == Object([]))
    ensures Restores(v, w)
  {
  }

  lemma ArrayRestored(v: Json, w: Json)
    requires v.Array? && w.Array? && |w.items| == |v.items| && forall k | 0 <= k < |v.items| :: Restores(v.items[k], w.items[k])
    ensures Restores(v, w)
  {
  }

  /** The text from element `i` on, its comma aside, reads as the elements from `i` on. */
  lemma {:induction false} ReadBackItems(v: Json, p: string, i: nat, t: string) returns (ws: seq<Json>)
    requires WellFormed(v) && v.Array? && i < |v.items| && Items(v.items[i..], p, i).Success?
    ensures var text := Items(v.items[i..], p, i).value;
            text != "" && (i > 0 ==> text[0] == ',')
            && ReadItems((if i > 0 then text[1..] else text) + "]" + t) == Some((ws, t))
    ensures |ws| == |v.items| - i && forall k | 0 <= k < |ws| :: Restores(v.items[i + k], ws[k])
    decreases v, 0, |v.items| - i
  {
    hide Same, ReadValue, Items, Restores;
    var rest := ItemsStep(v, p, i, t);
    var x := Canonical(v.items[i], ItemPath(p, i)).value;
    var comma := if i > 0 then "," else "";
    Opening(v.items[i], ItemPath(p, i));
    var text := Items(v.items[i..], p, i).value;
    assert text == comma + x + Items(v.items[i + 1..], p, i + 1).value;
    assert (if i > 0 then text[1..] else text) + "]" + t == x + rest;
    var w := ReadBack(v.items[i], ItemPath(p, i), rest);
    if i + 1 == |v.items| {
      LastItem(v, p, i + 1);
      assert rest == "]" + t && rest[1..] == t;
      ws := [w];
    } else {
      var more := ReadBackItems(v, p, i + 1, t);
      var next := Items(v.items[i + 1..], p, i + 1).value;
      assert rest[0] == ',' && rest[1..] == next[1..] + "]" + t;
      ws := [w] + more;
      forall k | 0 <= k < |ws| ensures Restores(v.items[i + k], ws[k]) {
        assert k > 0 ==> ws[k] == more[k - 1] && v.items[i + k] == v.items[i + 1 + (k - 1)];
      }
    }
  }

  lemma LastItem(v: Json, p: string, i: nat)
    requires v.Array? && i == |v.items|
    ensures Items(v.items[i..], p, i) == Success("")
  {
  }

  /** What stands in braces reads as an object. */
  lemma BracesRead(body: string, ms: seq<Entry<Json>>, t: string)
    requires (body == "" && ms == []) || (body != "" && body[0] == '"' && ReadMembers(body + "}" + t) == Some((ms, t)))
    ensures ReadValue("{" + body + "}" + t) == Some((Object(ms), t))
  {
    hide ReadMembers, ReadItems, ReadString;
    var x := "{" + body + "}" + t;
    assert x[0] == '{' && x[1..] == body + "}" + t;
    if body == "" {
      assert x[1] == '}' && x[2..] == t;
    } else {
      assert x[1] == body[0];
    }
  }

  lemma {:induction false} ReadBackObject(v: Json, p: string, t: string) returns (w: Json)
    requires WellFormed(v) && Canonical(v, p).Success? && v.Object?
    ensures ReadValue(Canonical(v, p).value + t) == Some((w, t)) && Restores(v, w)
    decreases v, 0, |v.members| + 2
  {
    hide Same, ReadValue, ReadMembers, Restores, RendersMembers, StandsFor, WellFormed, Rendered, SortByKey, Fields;
    var es := SortByKey(Rendered(v.members, p));
    var body := Fields(es, true).value;
    SortKeeps(Rendered(v.members, p));
    SortedRenders(v, p);
    SortedKeys(v, p);
    RenderedLength(v.members, p);
    assert Canonical(v, p).value + t == "{" + body + "}" + t;
    if es == [] {
      NoFields();
      w := Object([]);
      BracesRead(body, [], t);
      EmptyRestored(v, w);
    } else {
      var ms := ReadBackFields(v, p, es, true, t);
      FieldsQuoted(es);
      w := Object(ms);
      BracesRead(body, ms, t);
      ObjectRestored(v, p, es, ms);
    }
  }

  lemma RenderedLength(members: seq<Entry<Json>>, p: string)
    ensures |Rendered(members, p)| == |members|
  {
  }

  lemma NoFields()
    ensures Fields([], true) == Success("")
  {
  }

  lemma FieldsQuoted(es: seq<Entry<Rendering>>)
    requires es != [] && Fields(es, true).Success?
    ensures Fields(es, true).value != "" && Fields(es, true).value[0] == '"'
  {
    hide Escape;
  }

  lemma SortedKeys(v: Json, p: string)
    requires v.Object? && WellFormed(v)
    ensures Ascending(SortByKey(Rendered(v.members, p)))
  {
    SortAscending(Rendered(v.members, p));
  }

  /** A member that was read stands for the one that was printed. */
  ghost predicate StandsFor(v: Json, p: string, e: Entry<Rendering>, m: Entry<Json>)
    requires v.Object?
  {
    m.key == e.key && exists n | n in v.members :: e == Entry(n.key, Canonical(n.item, FieldPath(p, n.key))) && Restores(n.item, m.item)
  }

  lemma {:induction false} ReadBackFields(v: Json, p: string, es: seq<Entry<Rendering>>, first: bool, t: string)
    returns (ms: seq<Entry<Json>>)
    requires WellFormed(v) && RendersMembers(es, v, p) && es != [] && Fields(es, first).Success?
    ensures var text := Fields(es, first).value;
            text != "" && (!first ==> text[0] == ',')
            && ReadMembers((if first then text else text[1..]) + "}" + t) == Some((ms, t))
    ensures |ms| == |es| && forall k | 0 <= k < |es| :: StandsFor(v, p, es[k], ms[k])
    decreases v, 0, |es|
  {
    hide Same, ReadValue, ReadString, ReadMembers, Restores, StandsFor, Quote, Escape;
    var rest := FieldsStep(es, first, t);
    var m := ReadBackField(v, p, es[0], rest);
    var text := Fields(es, first).value;
    FieldTextOf(es, first, t, rest);
    var y := (if first then text else text[1..]) + "}" + t;
    if |es| == 1 {
      assert Fields(es[1..], false) == Success("");
      assert rest == "}" + t && rest[1..] == t;
      ms := [m];
      MemberRead(y, es[0].key, m.item, es[0].item.value, rest, [], t);
      assert [m] + [] == [m];
    } else {
      var more := ReadBackFields(v, p, es[1..], false, t);
      var next := Fields(es[1..], false).value;
      assert rest[0] == ',' && rest[1..] == next[1..] + "}" + t;
      ms := [m] + more;
      MemberRead(y, es[0].key, m.item, es[0].item.value, rest, more, t);
      forall k | 0 <= k < |es| ensures StandsFor(v, p, es[k], ms[k]) {
        assert k > 0 ==> ms[k] == more[k - 1] && es[k] == es[1..][k - 1];
      }
    }
  }

  lemma KeyOpened(key: string, u: string)
    ensures var y := Quote(key) + u; y != "" && y[0] == '"' && y[1..] == Escape(key) + "\"" + u
  {
  }

  lemma AfterComma(comma: string, text: string, end: string, u: string)
    requires (comma == "" || comma == ",") && text + end == comma + u && u != "" && text != ""
    ensures (comma == "," ==> text[0] == ',') && (if comma == "" then text else text[1..]) + end == u
  {
    assert (text + end)[0] == text[0];
    if comma == "," {
      assert (text + end)[1..] == text[1..] + end;
      assert ("," + u)[1..] == u;
    }
  }

  /** The text of the fields, its comma aside, up to the value of the first one. */
  lemma FieldTextOf(es: seq<Entry<Rendering>>, first: bool, t: string, rest: string)
    requires es != [] && Fields(es, first).Success? && es[0].item.Success?
    requires Fields(es, first).value + "}" + t
             == (if first then "" else ",") + (Quote(es[0].key) + (":" + (es[0].item.value + rest)))
    ensures var text := Fields(es, first).value;
            text != "" && (!first ==> text[0] == ',')
            && var y := (if first then text else text[1..]) + "}" + t;
               y != "" && y[0] == '"' && y[1..] == Escape(es[0].key) + "\"" + (":" + (es[0].item.value + rest))
  {
    hide Quote, Escape;
    var text := Fields(es, first).value;
    FieldsNotEmpty(es, first);
    KeyOpened(es[0].key, ":" + (es[0].item.value + rest));
    assert text + "}" + t == text + ("}" + t);
    AfterComma(if first then "" else ",", text, "}" + t, Quote(es[0].key) + (":" + (es[0].item.value + rest)));
    assert (if first then text else text[1..]) + ("}" + t) == (if first then text else text[1..]) + "}" + t;
  }

  lemma FieldsNotEmpty(es: seq<Entry<Rendering>>, first: bool)
    requires es != [] && Fields(es, first).Success?
    ensures Fields(es, first).value != ""
  {
    hide Quote;
  }

  /** One member and what follows it. */
  lemma MemberRead(y: string, key: string, item: Json, text: string, rest: string, ms: seq<Entry<Json>>, t: string)
    requires y != "" && y[0] == '"' && ReadString(y[1..]) == Some((key, ":" + (text + rest)))
    requires (":" + (text + rest))[1..] == text + rest && ReadValue(text + rest) == Some((item, rest)) && rest != ""
    requires (rest[0] == '}' && ms == [] && rest[1..] == t) || (rest[0] == ',' && ReadMembers(rest[1..]) == Some((ms, t)))
    ensures ReadMembers(y) == Some(([Entry(key, item)] + ms, t))
  {
    hide ReadString, ReadValue;
    assert [Entry(key, item)] + [] == [Entry(key, item)];
  }

  lemma {:induction false} ReadBackField(v: Json, p: string, e: Entry<Rendering>, rest: string) returns (m: Entry<Json>)
    requires WellFormed(v) && v.Object? && RendersMember(e, v, p) && e.item.Success? && Stops(rest)
    ensures StandsFor(v, p, e, m) && m.key == e.key
    ensures ReadString(Escape(e.key) + "\"" + (":" + (e.item.value + rest))) == Some((e.key, ":" + (e.item.value + rest)))
    ensures (":" + (e.item.value + rest))[1..] == e.item.value + rest && ReadValue(e.item.value + rest) == Some((m.item, rest))
    decreases v, 0, 0
  {
    hide Same, ReadValue, ReadString, Restores;
    var n :| n in v.members && e == Entry(n.key, Canonical(n.item, FieldPath(p, n.key)));
    var w := ReadBack(n.item, FieldPath(p, n.key), rest);
    ReadEscapes(e.key, ":" + (e.item.value + rest));
    m := Entry(e.key, w);
  }

  lemma ObjectRestored(v: Json, p: string, es: seq<Entry<Rendering>>, ms: seq<Entry<Json>>)
    requires WellFormed(v) && v.Object? && es == SortByKey(Rendered(v.members, p)) && Ascending(es) && |ms| == |es| == |v.members|
    requires forall k | 0 <= k < |es| :: StandsFor(v, p, es[k], ms[k])
    ensures Restores(v, Object(ms))
  {
    hide Canonical, WellFormed, Same, Arranged, StandsFor, Ascending, Rendered, SortByKey, HasMember;
    forall k | 0 <= k < |ms| ensures ms[k].key == es[k].key && Arranged(ms[k].item) {
      StandsArranged(v, p, es[k], ms[k]);
    }
    forall i | 0 <= i < |v.members| ensures HasMember(ms, v.members[i].key, v.members[i].item) {
      MemberRestored(v, p, es, ms, i);
    }
    SameByMembers(v, ms);
    ArrangedObject(es, ms);
  }

  lemma StandsArranged(v: Json, p: string, e: Entry<Rendering>, m: Entry<Json>)
    requires v.Object? && StandsFor(v, p, e, m)
    ensures m.key == e.key && Arranged(m.item)
  {
    hide Canonical, Same;
  }

  lemma ArrangedObject(es: seq<Entry<Rendering>>, ms: seq<Entry<Json>>)
    requires Ascending(es) && |ms| == |es| && forall k | 0 <= k < |ms| :: ms[k].key == es[k].key && Arranged(ms[k].item)
    ensures Arranged(Object(ms))
  {
    hide KeyBefore;
  }

  lemma SameByMembers(v: Json, ms: seq<Entry<Json>>)
    requires v.Object? && |ms| == |v.members|
    requires forall i | 0 <= i < |v.members| :: HasMember(ms, v.members[i].key, v.members[i].item)
    ensures Same(v, Object(ms))
  {
  }

  lemma MemberRestored(v: Json, p: string, es: seq<Entry<Rendering>>, ms: seq<Entry<Json>>, i: nat)
    requires WellFormed(v) && v.Object? && es == SortByKey(Rendered(v.members, p)) && |ms| == |es| && i < |v.members|
    requires forall k | 0 <= k < |es| :: StandsFor(v, p, es[k], ms[k])
    ensures HasMember(ms, v.members[i].key, v.members[i].item)
  {
    hide Canonical, SortByKey, Arranged, WellFormed, StandsFor, Same, HasMember;
    var rs := Rendered(v.members, p);
    SortKeeps(rs);
    assert rs[i] in rs;
    var k := IndexOf(rs[i], es);
    StandsMember(v, p, es[k], ms[k], i);
    MemberHeld(ms, k, v.members[i].item);
  }

  lemma StandsMember(v: Json, p: string, e: Entry<Rendering>, m: Entry<Json>, i: nat)
    requires WellFormed(v) && v.Object? && i < |v.members| && StandsFor(v, p, e, m) && e.key == v.members[i].key
    ensures m.key == v.members[i].key && Same(v.members[i].item, m.item)
  {
    hide Canonical, Arranged, Same;
    var n :| n in v.members && e == Entry(n.key, Canonical(n.item, FieldPath(p, n.key))) && Restores(n.item, m.item);
    var j := IndexOf(n, v.members);
    KeyDecides(v.members, i, j);
  }

  lemma MemberHeld(ms: seq<Entry<Json>>, k: nat, item: Json)
    requires k < |ms| && Same(item, ms[k].item)
    ensures HasMember(ms, ms[k].key, item)
  {
  }

  /**
   What the canonical text says. A text that a well-formed value is printed as reads back as
   that value, its members put in ascending order of their keys, with nothing left over.
   */
  lemma CanonicalReadsBack(v: Json, path: string) returns (w: Json)
    requires WellFormed(v) && IntegersOnly(v)
    ensures Canonical(v, path).Success? && ReadValue(Canonical(v, path).value) == Some((w, ""))
    ensures Same(v, w) && Arranged(w)
  {
    hide Canonical, ReadValue;
    CanonicalIffIntegersOnly(v, path);
    w := ReadBack(v, path, "");
    assert Canonical(v, path).value + "" == Canonical(v, path).value;
  }
}
