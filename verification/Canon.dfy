/**
 Canonical form: the one text every digest and signature is taken over
 (`src/v2/canon.rs`). `Canonical` says what the printer must write, the methods at
 the end write it piece by piece, and the lemmas show that the text decides the
 value up to the order of object members.
 */
module Canon {
  import opened Collections
  import opened Wrappers
  import opened Text

  datatype Entry<+T> = Entry(key: string, item: T)

  datatype Json =
    | Null
    | Bool(b: bool)
    | Number(text: string)          // the decimal text kept by `arbitrary_precision`
    | String(s: string)
    | Array(items: seq<Json>)
    | Object(members: seq<Entry<Json>>)  // in insertion order

  datatype CanonError = NonIntegerNumber(value: string, path: string)

  type Rendering = Result<string, CanonError>

  // ------------------------------------------------------------ the values

  predicate NumberChar(c: char) {
    IsDigit(c) || c in "+-.eE"
  }

  /** Serde's maps never repeat a key and its numbers are made of number characters. */
  predicate WellFormed(v: Json) {
    match v
    case Number(text) => text != "" && forall i | 0 <= i < |text| :: NumberChar(text[i])
    case Array(items) => forall i | 0 <= i < |items| :: WellFormed(items[i])
    case Object(members) => DistinctKeys(members) && forall i | 0 <= i < |members| :: WellFormed(members[i].item)
    case _ => true
  }

  predicate DistinctKeys<T>(es: seq<Entry<T>>) {
    forall i, j | 0 <= i < j < |es| :: es[i].key != es[j].key
  }

  predicate IntegerText(text: string) {
    '.' !in text && 'e' !in text && 'E' !in text
  }

  predicate IntegersOnly(v: Json) {
    match v
    case Number(text) => IntegerText(text)
    case Array(items) => forall i | 0 <= i < |items| :: IntegersOnly(items[i])
    case Object(members) => forall i | 0 <= i < |members| :: IntegersOnly(members[i].item)
    case _ => true
  }

  /** Equality up to the order of object members. */
  ghost predicate Same(a: Json, b: Json)
    decreases a, 1
  {
    match (a, b)
    case (Array(xs), Array(ys)) => |xs| == |ys| && forall i | 0 <= i < |xs| :: Same(xs[i], ys[i])
    case (Object(ms), Object(ns)) => |ms| == |ns| && forall i | 0 <= i < |ms| :: HasMember(ns, ms[i].key, ms[i].item)
    case _ => a == b
  }

  ghost predicate HasMember(ns: seq<Entry<Json>>, key: string, item: Json)
    decreases item, 2
  {
    exists j | 0 <= j < |ns| :: key == ns[j].key && Same(item, ns[j].item)
  }

  // --------------------------------------------------------------- sorting

  function Insert<T>(e: Entry<T>, es: seq<Entry<T>>): seq<Entry<T>> {
    if es == [] || !KeyBefore(es[0].key, e.key) then [e] + es else [es[0]] + Insert(e, es[1..])
  }

  function SortByKey<T>(es: seq<Entry<T>>): seq<Entry<T>> {
    if es == [] then [] else Insert(es[0], SortByKey(es[1..]))
  }

  predicate Ascending<T>(es: seq<Entry<T>>) {
    forall i, j | 0 <= i < j < |es| :: KeyBefore(es[i].key, es[j].key)
  }

  lemma IndexOf<T(!new)>(x: T, xs: seq<T>) returns (k: nat)
    requires x in xs
    ensures k < |xs| && xs[k] == x
  {
    k :| k < |xs| && xs[k] == x;
  }

  lemma {:induction false} InsertKeeps<T(!new)>(e: Entry<T>, es: seq<Entry<T>>)
    ensures |Insert(e, es)| == |es| + 1
    ensures forall x :: x in Insert(e, es) <==> x == e || x in es
  {
    if es != [] && KeyBefore(es[0].key, e.key) {
      InsertKeeps(e, es[1..]);
      assert forall x :: x in es <==> x == es[0] || x in es[1..];
    }
  }

  lemma {:induction false} SortKeeps<T(!new)>(es: seq<Entry<T>>)
    ensures |SortByKey(es)| == |es|
    ensures forall x :: x in SortByKey(es) <==> x in es
  {
    if es != [] {
      SortKeeps(es[1..]);
      InsertKeeps(es[0], SortByKey(es[1..]));
      assert forall x :: x in es <==> x == es[0] || x in es[1..];
    }
  }

  lemma {:induction false} InsertAscending<T(!new)>(e: Entry<T>, es: seq<Entry<T>>)
    requires Ascending(es) && forall x | x in es :: x.key != e.key
    ensures Ascending(Insert(e, es))
  {
    if es != [] {
      KeyBeforeTotal(e.key, es[0].key);
      if KeyBefore(es[0].key, e.key) {
        InsertAscending(e, es[1..]);
        InsertKeeps(e, es[1..]);
        var tail := Insert(e, es[1..]);
        forall k | 0 <= k < |tail| ensures KeyBefore(es[0].key, tail[k].key) {
          var x := tail[k];
          assert x in tail;
          assert x == e || x in es[1..];
          if x != e {
            var m := IndexOf(x, es[1..]);
            assert es[m + 1] == x;
          }
        }
      } else {
        assert es[0] in es;
        forall k | 0 <= k < |es| ensures KeyBefore(e.key, es[k].key) {
          if k > 0 {
            BytesBeforeTransitive(Utf8(e.key), Utf8(es[0].key), Utf8(es[k].key));
          }
        }
      }
    }
  }

  lemma {:induction false} SortAscending<T(!new)>(es: seq<Entry<T>>)
    requires DistinctKeys(es)
    ensures Ascending(SortByKey(es))
  {
    if es != [] {
      SortAscending(es[1..]);
      SortKeeps(es[1..]);
      forall x | x in SortByKey(es[1..]) ensures x.key != es[0].key {
        var m := IndexOf(x, es[1..]);
        assert es[m + 1] == x;
      }
      InsertAscending(es[0], SortByKey(es[1..]));
    }
  }

  /** An ascending arrangement is decided by its elements. */
  lemma {:induction false} AscendingUnique<T(!new)>(xs: seq<Entry<T>>, ys: seq<Entry<T>>)
    requires Ascending(xs) && Ascending(ys) && |xs| == |ys| && forall e :: e in xs <==> e in ys
    ensures xs == ys
  {
    if xs != [] {
      assert xs[0] in xs;
      assert ys[0] in ys;
      FirstIsLeast(xs, ys[0]);
      FirstIsLeast(ys, xs[0]);
      if KeyBefore(xs[0].key, ys[0].key) {
        BytesBeforeStrict(Utf8(xs[0].key), Utf8(ys[0].key));
      }
      assert xs[0] == ys[0];
      forall e ensures e in xs[1..] <==> e in ys[1..] {
        TailMembers(xs, e);
        TailMembers(ys, e);
      }
      AscendingUnique(xs[1..], ys[1..]);
    }
  }

  lemma FirstIsLeast<T(!new)>(xs: seq<Entry<T>>, e: Entry<T>)
    requires Ascending(xs) && e in xs
    ensures e == xs[0] || KeyBefore(xs[0].key, e.key)
  {
  }

  lemma TailMembers<T(!new)>(xs: seq<Entry<T>>, e: Entry<T>)
    requires Ascending(xs) && xs != []
    ensures e in xs[1..] <==> e in xs && e != xs[0]
  {
    if e in xs[1..] {
      var k :| 1 <= k < |xs| && xs[k] == e;
      BytesBeforeStrict(Utf8(xs[0].key), Utf8(xs[k].key));
    }
  }

  // ------------------------------------------------------------ the printer

  function EscapeChar(c: char): (r: string)
    ensures r != "" && r[0] != '"'
  {
    if c == '"' then "\\\""
    else if c == '\\' then "\\\\"
    else if c as int < 0x20 then "\\u00" + [HexDigit(c as int / 16), HexDigit(c as int % 16)]
    else [c]
  }

  function Escape(s: string): string {
    if s == [] then "" else EscapeChar(s[0]) + Escape(s[1..])
  }

  function Quote(s: string): string {
    "\"" + Escape(s) + "\""
  }

  function ItemPath(path: string, i: nat): string {
    path + "[" + Decimal(i) + "]"
  }

  function FieldPath(path: string, key: string): string {
    path + "." + key
  }

  /** The canonical text of a value, or the first number in writing order that has none. */
  function Canonical(v: Json, path: string): Rendering
    decreases v
  {
    match v
    case Null => Success("null")
    case Bool(b) => Success(if b then "true" else "false")
    case Number(text) => if IntegerText(text) then Success(text) else Failure(NonIntegerNumber(text, path))
    case String(s) => Success(Quote(s))
    case Array(items) =>
      Enclosed("[", Items(items, path, 0), "]")
    case Object(members) =>
      Enclosed("{", Fields(SortByKey(Rendered(members, path)), true), "}")
  }

  function Enclosed(open: string, body: Rendering, close: string): Rendering {
    match body
    case Success(text) => Success(open + text + close)
    case Failure(_) => body
  }

  function Items(items: seq<Json>, path: string, i: nat): Rendering
    decreases items
  {
    if items == [] then Success("")
    else
      var text :- Canonical(items[0], ItemPath(path, i));
      var rest :- Items(items[1..], path, i + 1);
      Success((if i > 0 then "," else "") + text + rest)
  }

  function Rendered(members: seq<Entry<Json>>, path: string): (r: seq<Entry<Rendering>>)
    ensures |r| == |members|
    ensures forall i | 0 <= i < |r| ::
              r[i] == Entry(members[i].key, Canonical(members[i].item, FieldPath(path, members[i].key)))
    decreases members
  {
    if members == [] then []
    else
      [Entry(members[0].key, Canonical(members[0].item, FieldPath(path, members[0].key)))]
      + Rendered(members[1..], path)
  }

  function Fields(es: seq<Entry<Rendering>>, first: bool): Rendering {
    if es == [] then Success("")
    else
      var text :- es[0].item;
      var rest :- Fields(es[1..], false);
      Success((if first then "" else ",") + Quote(es[0].key) + ":" + text + rest)
  }

  function DigestOf(sha256: string -> string, v: Json): Result<string, CanonError> {
    var text :- Canonical(v, "$");
    Success(sha256(text))
  }

  // ----------------------------------------------- which values have a text

  lemma {:induction false} CanonicalIffIntegersOnly(v: Json, path: string)
    ensures Canonical(v, path).Success? <==> IntegersOnly(v)
    decreases v, 1, 0
  {
    match v
    case Array(items) => ItemsIffIntegersOnly(v, path, 0);
    case Object(members) =>
      var rs := Rendered(members, path);
      forall i | 0 <= i < |members| ensures rs[i].item.Success? <==> IntegersOnly(members[i].item) {
        CanonicalIffIntegersOnly(members[i].item, FieldPath(path, members[i].key));
      }
      SortKeeps(rs);
      FieldsSucceed(SortByKey(rs), true);
      assert (forall r | r in rs :: r.item.Success?) <==> forall i | 0 <= i < |members| :: IntegersOnly(members[i].item) by {
        forall i | 0 <= i < |members| ensures rs[i] in rs {}
      }
    case _ =>
  }

  lemma {:induction false} ItemsIffIntegersOnly(v: Json, path: string, i: nat)
    requires v.Array? && i <= |v.items|
    ensures Items(v.items[i..], path, i).Success? <==> forall k | i <= k < |v.items| :: IntegersOnly(v.items[k])
    decreases v, 0, |v.items| - i
  {
    if i < |v.items| {
      CanonicalIffIntegersOnly(v.items[i], ItemPath(path, i));
      ItemsIffIntegersOnly(v, path, i + 1);
      assert v.items[i..][1..] == v.items[i + 1..];
    }
  }

  lemma {:induction false} FieldsSucceed(es: seq<Entry<Rendering>>, first: bool)
    ensures Fields(es, first).Success? <==> forall e | e in es :: e.item.Success?
  {
    if es != [] {
      FieldsSucceed(es[1..], false);
      assert forall e :: e in es <==> e == es[0] || e in es[1..];
    }
  }

  // ------------------------------------------- order of members is forgotten

  /** Two members with one key are one member. */
  lemma KeyDecides<T(!new)>(es: seq<Entry<T>>, i: nat, j: nat)
    requires DistinctKeys(es) && i < |es| && j < |es| && es[i].key == es[j].key
    ensures i == j
  {
  }

  lemma {:induction false} SameCanonical(a: Json, b: Json, path: string)
    requires WellFormed(a) && WellFormed(b) && Same(a, b)
    ensures Canonical(a, path) == Canonical(b, path)
    decreases a, 0
  {
    match a
    case Array(items) => SameItems(a, b, path, 0);
    case Object(ms) =>
      var ns := b.members;
      var ra, rb := Rendered(ms, path), Rendered(ns, path);
      forall i | 0 <= i < |ms| ensures ra[i] in rb {
        var j :| 0 <= j < |ns| && ms[i].key == ns[j].key && Same(ms[i].item, ns[j].item);
        SameCanonical(ms[i].item, ns[j].item, FieldPath(path, ms[i].key));
        assert ra[i] == rb[j];
      }
      assert DistinctKeys(ra) && DistinctKeys(rb);
      IncludedBothWays(ra, rb);
      SortKeeps(ra);
      SortKeeps(rb);
      SortAscending(ra);
      SortAscending(rb);
      AscendingUnique(SortByKey(ra), SortByKey(rb));
    case _ =>
  }

  lemma {:induction false} SameItems(a: Json, b: Json, path: string, i: nat)
    requires WellFormed(a) && WellFormed(b) && Same(a, b) && a.Array? && i <= |a.items|
    ensures Items(a.items[i..], path, i) == Items(b.items[i..], path, i)
    decreases a, 0, |a.items| - i
  {
    if i < |a.items| {
      SameCanonical(a.items[i], b.items[i], ItemPath(path, i));
      SameItems(a, b, path, i + 1);
      assert a.items[i..][1..] == a.items[i + 1..];
      assert b.items[i..][1..] == b.items[i + 1..];
    }
  }

  /** Equally many distinct elements, all found in the other list, are all of them. */
  lemma IncludedBothWays<T(!new)>(xs: seq<Entry<T>>, ys: seq<Entry<T>>)
    requires DistinctKeys(xs) && DistinctKeys(ys) && |xs| == |ys|
    requires forall i | 0 <= i < |xs| :: xs[i] in ys
    ensures forall e :: e in xs <==> e in ys
  {
    var sx, sy := set e | e in xs, set e | e in ys;
    DistinctCount(xs);
    DistinctCount(ys);
    assert sx <= sy;
    if e :| e in sy && e !in sx {
      SubsetCount(sx, sy - {e});
    }
    assert sx == sy;
    forall e ensures e in xs <==> e in ys {
      assert e in xs <==> e in sx;
    }
  }

  lemma {:induction false} DistinctCount<T(!new)>(xs: seq<Entry<T>>)
    requires DistinctKeys(xs)
    ensures |set e | e in xs| == |xs|
  {
    if xs != [] {
      DistinctCount(xs[1..]);
      assert (set e | e in xs) == {xs[0]} + (set e | e in xs[1..]);
      assert forall e | e in xs[1..] :: e.key != xs[0].key;
    }
  }

  // --------------------------------------------- the text decides the value

  /** What may follow a number: the end, or anything a number cannot contain. */
  predicate Stops(rest: string) {
    rest == "" || !NumberChar(rest[0])
  }

  lemma EscapeCharPrefixCode(c: char, d: char, s: string, t: string)
    requires EscapeChar(c) + s == EscapeChar(d) + t
    ensures c == d && s == t
  {
    var x, y := EscapeChar(c), EscapeChar(d);
    var w := x + s;
    assert w[0] == x[0] && w[0] == y[0];
    if x[0] == '\\' {
      assert w[1] == x[1] && w[1] == y[1];
      if x[1] == 'u' {
        assert w[4] == x[4] && w[4] == y[4] && w[5] == x[5] && w[5] == y[5];
        assert HexValue(x[4]) == c as int / 16 && HexValue(y[4]) == d as int / 16;
        assert HexValue(x[5]) == c as int % 16 && HexValue(y[5]) == d as int % 16;
      }
    }
    assert c == d;
    assert s == w[|x|..] == t;
  }

  lemma EscapeStep(a: string, s: string)
    ensures var w := Escape(a) + "\"" + s;
            if a == [] then w[0] == '"' && w[1..] == s
            else w[0] != '"' && w == EscapeChar(a[0]) + (Escape(a[1..]) + "\"" + s)
  {
    if a != [] {
      EscapeAppend(EscapeChar(a[0]), Escape(a[1..]), s);
    }
  }

  lemma EscapeAppend(h: string, r: string, s: string)
    requires h != ""
    ensures h + r + "\"" + s == h + (r + "\"" + s) && (h + r + "\"" + s)[0] == h[0]
  {
  }

  lemma {:induction false} EscapePrefixCode(a: string, b: string, s: string, t: string)
    requires Escape(a) + "\"" + s == Escape(b) + "\"" + t
    ensures a == b && s == t
  {
    EscapeStep(a, s);
    EscapeStep(b, t);
    if a != [] && b != [] {
      EscapeCharPrefixCode(a[0], b[0], Escape(a[1..]) + "\"" + s, Escape(b[1..]) + "\"" + t);
      EscapePrefixCode(a[1..], b[1..], s, t);
      assert a == [a[0]] + a[1..] && b == [b[0]] + b[1..];
    }
  }

  lemma QuotePrefixCode(a: string, b: string, s: string, t: string)
    requires Quote(a) + s == Quote(b) + t
    ensures a == b && s == t
  {
    var w := Quote(a) + s;
    assert w[1..] == Escape(a) + "\"" + s;
    assert w[1..] == Escape(b) + "\"" + t;
    EscapePrefixCode(a, b, s, t);
  }

  lemma {:induction false} NumberPrefixCode(a: string, b: string, s: string, t: string)
    requires forall i | 0 <= i < |a| :: NumberChar(a[i])
    requires forall i | 0 <= i < |b| :: NumberChar(b[i])
    requires Stops(s) && Stops(t) && a + s == b + t
    ensures a == b && s == t
  {
    HeadOf(a, s);
    HeadOf(b, t);
    if a != [] && b != [] {
      NumberPrefixCode(a[1..], b[1..], s, t);
    }
  }

  lemma HeadOf(a: string, s: string)
    ensures a == [] ==> a + s == s
    ensures a != [] ==> (a + s)[0] == a[0] && (a + s)[1..] == a[1..] + s
  {
  }

  /** The first character of a text tells which kind of value it opens. */
  lemma Opening(v: Json, path: string)
    requires WellFormed(v) && Canonical(v, path).Success?
    ensures var x := Canonical(v, path).value;
            x != "" && match v
                       case Null => x[0] == 'n'
                       case Bool(b) => x[0] == if b then 't' else 'f'
                       case Number(_) => NumberChar(x[0]) && x[0] != 'e'
                       case String(_) => x[0] == '"'
                       case Array(_) => x[0] == '['
                       case Object(_) => x[0] == '{'
  {
  }

  /**
   Two texts that agree, each followed by something that cannot prolong a number,
   are the same text of the same value.
   */
  lemma {:induction false} PrefixCode(a: Json, p: string, b: Json, q: string, s: string, t: string)
    requires WellFormed(a) && WellFormed(b)
    requires Canonical(a, p).Success? && Canonical(b, q).Success?
    requires Canonical(a, p).value + s == Canonical(b, q).value + t
    requires a.Number? && b.Number? ==> Stops(s) && Stops(t)
    ensures Same(a, b) && Canonical(a, p).value == Canonical(b, q).value
    decreases a, 1, 0
  {
    hide Items, Fields, Rendered, SortByKey, Quote, IntegerText;
    SameKind(a, p, b, q, s, t);
    match a
    case Number(text) => NumberPrefixCode(text, b.text, s, t);
    case String(text) => QuotePrefixCode(text, b.s, s, t);
    case Array(items) => ArrayPrefixCode(a, p, b, q, s, t);
    case Object(members) => ObjectPrefixCode(a, p, b, q, s, t);
    case _ =>
  }

  /** The first character tells what kind of value a text is of. */
  lemma SameKind(a: Json, p: string, b: Json, q: string, s: string, t: string)
    requires WellFormed(a) && WellFormed(b)
    requires Canonical(a, p).Success? && Canonical(b, q).Success?
    requires Canonical(a, p).value + s == Canonical(b, q).value + t
    ensures (a.Null? <==> b.Null?) && (a.Bool? <==> b.Bool?) && (a.Number? <==> b.Number?) && (a.String? <==> b.String?)
            && (a.Array? <==> b.Array?) && (a.Object? <==> b.Object?)
    ensures a.Null? || a.Bool? ==> a == b
  {
    hide Items, Fields, Rendered, SortByKey, Quote;
    var x, y := Canonical(a, p).value, Canonical(b, q).value;
    Opening(a, p);
    Opening(b, q);
    HeadOf(x, s);
    HeadOf(y, t);
  }

  lemma {:induction false} ArrayPrefixCode(a: Json, p: string, b: Json, q: string, s: string, t: string)
    requires WellFormed(a) && WellFormed(b) && a.Array? && b.Array?
    requires Canonical(a, p).Success? && Canonical(b, q).Success?
    requires Canonical(a, p).value + s == Canonical(b, q).value + t
    ensures Same(a, b) && Canonical(a, p).value == Canonical(b, q).value
    decreases a, 0, |a.items| + 1
  {
    hide Items, WellFormed;
    var xa, xb := Items(a.items, p, 0).value, Items(b.items, q, 0).value;
    assert ("[" + xa + "]" + s)[1..] == xa + "]" + s;
    assert ("[" + xb + "]" + t)[1..] == xb + "]" + t;
    assert a.items[0..] == a.items && b.items[0..] == b.items;
    ItemsPrefixCode(a, p, b, q, 0, s, t);
  }

  /** The elements from position `i` on, each after the first one behind its comma. */
  lemma {:induction false} ItemsPrefixCode(a: Json, p: string, b: Json, q: string, i: nat, s: string, t: string)
    requires WellFormed(a) && WellFormed(b) && a.Array? && b.Array? && i <= |a.items| && i <= |b.items|
    requires Items(a.items[i..], p, i).Success? && Items(b.items[i..], q, i).Success?
    requires Items(a.items[i..], p, i).value + "]" + s == Items(b.items[i..], q, i).value + "]" + t
    ensures |a.items| == |b.items| && forall k | i <= k < |a.items| :: Same(a.items[k], b.items[k])
    ensures Items(a.items[i..], p, i) == Items(b.items[i..], q, i)
    decreases a, 0, |a.items| - i
  {
    ItemsOpening(a, p, i, s);
    ItemsOpening(b, q, i, t);
    assert i == |a.items| <==> i == |b.items|;
    if i < |a.items| {
      var ra := ItemsStep(a, p, i, s);
      var rb := ItemsStep(b, q, i, t);
      var x, y := Canonical(a.items[i], ItemPath(p, i)).value, Canonical(b.items[i], ItemPath(q, i)).value;
      DropPrefix(if i > 0 then "," else "", x + ra, y + rb);
      PrefixCode(a.items[i], ItemPath(p, i), b.items[i], ItemPath(q, i), ra, rb);
      DropPrefix(x, ra, rb);
      ItemsPrefixCode(a, p, b, q, i + 1, s, t);
    }
  }

  lemma DropPrefix(x: string, s: string, t: string)
    requires x + s == x + t
    ensures s == t
  {
    assert s == (x + s)[|x|..] == (x + t)[|x|..] == t;
  }

  /** The text of the elements from `i` on, taken apart at the first of them. */
  lemma ItemsStep(v: Json, p: string, i: nat, s: string) returns (rest: string)
    requires WellFormed(v) && v.Array? && i < |v.items| && Items(v.items[i..], p, i).Success?
    ensures Canonical(v.items[i], ItemPath(p, i)).Success? && Items(v.items[i + 1..], p, i + 1).Success?
    ensures rest == Items(v.items[i + 1..], p, i + 1).value + "]" + s && Stops(rest)
    ensures Items(v.items[i..], p, i)
            == Success((if i > 0 then "," else "") + Canonical(v.items[i], ItemPath(p, i)).value
                       + Items(v.items[i + 1..], p, i + 1).value)
    ensures Items(v.items[i..], p, i).value + "]" + s
            == (if i > 0 then "," else "") + (Canonical(v.items[i], ItemPath(p, i)).value + rest)
  {
    ItemsSplit(v, p, i);
    rest := Items(v.items[i + 1..], p, i + 1).value + "]" + s;
    ItemsOpening(v, p, i + 1, s);
    ItemText(if i > 0 then "," else "", Canonical(v.items[i], ItemPath(p, i)).value,
             Items(v.items[i + 1..], p, i + 1).value, s);
  }

  lemma ItemsSplit(v: Json, p: string, i: nat)
    requires v.Array? && i < |v.items| && Items(v.items[i..], p, i).Success?
    ensures Canonical(v.items[i], ItemPath(p, i)).Success? && Items(v.items[i + 1..], p, i + 1).Success?
    ensures Items(v.items[i..], p, i)
            == Success((if i > 0 then "," else "") + Canonical(v.items[i], ItemPath(p, i)).value
                       + Items(v.items[i + 1..], p, i + 1).value)
  {
    assert v.items[i..][0] == v.items[i] && v.items[i..][1..] == v.items[i + 1..];
  }

  lemma ItemText(comma: string, x: string, rest: string, s: string)
    ensures comma + x + rest + "]" + s == comma + (x + (rest + "]" + s))
  {
  }

  lemma ItemsOpening(v: Json, p: string, i: nat, s: string)
    requires WellFormed(v) && v.Array? && i <= |v.items| && Items(v.items[i..], p, i).Success?
    ensures var c := (Items(v.items[i..], p, i).value + "]" + s)[0];
            if i == |v.items| then c == ']' else if i > 0 then c == ',' else c != ']'
  {
    if i < |v.items| {
      ItemsSplit(v, p, i);
      Opening(v.items[i], ItemPath(p, i));
    }
  }

  /** Each rendered field comes from a member of the object. */
  ghost predicate RendersMembers(es: seq<Entry<Rendering>>, v: Json, p: string) {
    v.Object? && forall k | 0 <= k < |es| :: RendersMember(es[k], v, p)
  }

  ghost predicate RendersMember(e: Entry<Rendering>, v: Json, p: string)
    requires v.Object?
  {
    exists m | m in v.members :: e == Entry(m.key, Canonical(m.item, FieldPath(p, m.key)))
  }

  ghost predicate SameMember(a: Json, b: Json, key: string)
    requires a.Object? && b.Object?
  {
    exists m, n | m in a.members && n in b.members :: m.key == key && n.key == key && Same(m.item, n.item)
  }

  lemma {:induction false} ObjectPrefixCode(a: Json, p: string, b: Json, q: string, s: string, t: string)
    requires WellFormed(a) && WellFormed(b) && a.Object? && b.Object?
    requires Canonical(a, p).Success? && Canonical(b, q).Success?
    requires Canonical(a, p).value + s == Canonical(b, q).value + t
    ensures Same(a, b) && Canonical(a, p).value == Canonical(b, q).value
    decreases a, 0, |a.members| + 2
  {
    var sa, sb := SortByKey(Rendered(a.members, p)), SortByKey(Rendered(b.members, q));
    var xa, xb := Fields(sa, true).value, Fields(sb, true).value;
    SortKeeps(Rendered(a.members, p));
    SortKeeps(Rendered(b.members, q));
    SortedRenders(a, p);
    SortedRenders(b, q);
    Braces(xa, s);
    Braces(xb, t);
    FieldsPrefixCode(a, p, sa, b, q, sb, true, s, t);
    SameFromFields(a, b, p);
  }

  lemma Braces(x: string, s: string)
    ensures ("{" + x + "}" + s)[1..] == x + "}" + s
  {
  }

  lemma SameFromFields(a: Json, b: Json, p: string)
    requires WellFormed(a) && WellFormed(b) && a.Object? && b.Object? && |a.members| == |b.members|
    requires forall e | e in SortByKey(Rendered(a.members, p)) :: SameMember(a, b, e.key)
    ensures Same(a, b)
  {
    var ra := Rendered(a.members, p);
    SortKeeps(ra);
    forall i | 0 <= i < |a.members| ensures HasMember(b.members, a.members[i].key, a.members[i].item) {
      assert ra[i] in ra;
      var m, n :| m in a.members && n in b.members && m.key == ra[i].key && n.key == ra[i].key && Same(m.item, n.item);
      assert m == a.members[i];
    }
  }

  lemma SortedRenders(v: Json, p: string)
    requires v.Object?
    ensures RendersMembers(SortByKey(Rendered(v.members, p)), v, p)
  {
    var r := Rendered(v.members, p);
    SortKeeps(r);
    forall k | 0 <= k < |SortByKey(r)| ensures RendersMember(SortByKey(r)[k], v, p) {
      var e := SortByKey(r)[k];
      assert e in SortByKey(r);
      var i :| 0 <= i < |r| && r[i] == e;
      assert v.members[i] in v.members;
    }
  }

  /** Both lists of fields are writable and their texts agree up to the closing brace and beyond. */
  ghost predicate FieldsAgree(es: seq<Entry<Rendering>>, fs: seq<Entry<Rendering>>, first: bool, s: string, t: string) {
    Fields(es, first).Success? && Fields(fs, first).Success?
    && Fields(es, first).value + "}" + s == Fields(fs, first).value + "}" + t
  }

  lemma {:induction false} FieldsPrefixCode(
      a: Json, p: string, es: seq<Entry<Rendering>>, b: Json, q: string, fs: seq<Entry<Rendering>>,
      first: bool, s: string, t: string)
    requires WellFormed(a) && WellFormed(b) && RendersMembers(es, a, p) && RendersMembers(fs, b, q)
    requires FieldsAgree(es, fs, first, s, t)
    ensures |es| == |fs| && forall k | 0 <= k < |es| :: SameMember(a, b, es[k].key)
    ensures Fields(es, first) == Fields(fs, first)
    decreases a, 0, |es| + 1
  {
    FieldsOpening(es, first, s);
    FieldsOpening(fs, first, t);
    assert es == [] <==> fs == [];
    if es != [] {
      PeelFields(a, p, es, b, q, fs, first, s, t);
      FieldsPrefixCode(a, p, es[1..], b, q, fs[1..], false, s, t);
      assert es == [es[0]] + es[1..];
    }
  }

  lemma {:induction false} PeelFields(
      a: Json, p: string, es: seq<Entry<Rendering>>, b: Json, q: string, fs: seq<Entry<Rendering>>,
      first: bool, s: string, t: string)
    requires WellFormed(a) && WellFormed(b) && RendersMembers(es, a, p) && RendersMembers(fs, b, q)
    requires es != [] && fs != [] && FieldsAgree(es, fs, first, s, t)
    ensures es[0].key == fs[0].key && es[0].item == fs[0].item && SameMember(a, b, es[0].key)
    ensures FieldsAgree(es[1..], fs[1..], false, s, t)
    decreases a, 0, 1
  {
    var ra := FieldsStep(es, first, s);
    var rb := FieldsStep(fs, first, t);
    FirstField(a, p, es[0], b, q, fs[0], if first then "" else ",", ra, rb);
  }

  lemma {:induction false} FirstField(
      a: Json, p: string, e: Entry<Rendering>, b: Json, q: string, f: Entry<Rendering>,
      comma: string, ra: string, rb: string)
    requires WellFormed(a) && WellFormed(b) && a.Object? && b.Object?
    requires RendersMember(e, a, p) && RendersMember(f, b, q) && e.item.Success? && f.item.Success?
    requires Stops(ra) && Stops(rb)
    requires comma + (Quote(e.key) + (":" + (e.item.value + ra))) == comma + (Quote(f.key) + (":" + (f.item.value + rb)))
    ensures SameMember(a, b, e.key) && e.key == f.key && e.item == f.item && ra == rb
    decreases a, 0, 0
  {
    var m :| m in a.members && e == Entry(m.key, Canonical(m.item, FieldPath(p, m.key)));
    var n :| n in b.members && f == Entry(n.key, Canonical(n.item, FieldPath(q, n.key)));
    PeelField(comma, m.key, n.key, e.item.value, f.item.value, ra, rb);
    PrefixCode(m.item, FieldPath(p, m.key), n.item, FieldPath(q, n.key), ra, rb);
    DropPrefix(e.item.value, ra, rb);
  }

  /** The text of the fields, taken apart at the first one. */
  lemma FieldsStep(es: seq<Entry<Rendering>>, first: bool, s: string) returns (rest: string)
    requires es != [] && Fields(es, first).Success?
    ensures es[0].item.Success? && Fields(es[1..], false).Success? && rest == Fields(es[1..], false).value + "}" + s
    ensures Stops(rest)
    ensures Fields(es, first).value + "}" + s
            == (if first then "" else ",") + (Quote(es[0].key) + (":" + (es[0].item.value + rest)))
  {
    rest := Fields(es[1..], false).value + "}" + s;
    FieldsOpening(es[1..], false, s);
    FieldText(if first then "" else ",", Quote(es[0].key), es[0].item.value, Fields(es[1..], false).value, s);
  }

  lemma FieldsOpening(es: seq<Entry<Rendering>>, first: bool, s: string)
    requires Fields(es, first).Success?
    ensures (Fields(es, first).value + "}" + s)[0] == if es == [] then '}' else if first then '"' else ','
  {
  }

  lemma FieldText(comma: string, q: string, x: string, rest: string, s: string)
    ensures comma + q + ":" + x + rest + "}" + s == comma + (q + (":" + (x + (rest + "}" + s))))
  {
  }

  lemma PeelField(comma: string, k: string, l: string, x: string, y: string, ra: string, rb: string)
    requires comma + (Quote(k) + (":" + (x + ra))) == comma + (Quote(l) + (":" + (y + rb)))
    ensures k == l && x + ra == y + rb
  {
    DropPrefix(comma, Quote(k) + (":" + (x + ra)), Quote(l) + (":" + (y + rb)));
    QuotePrefixCode(k, l, ":" + (x + ra), ":" + (y + rb));
    DropPrefix(":", x + ra, y + rb);
  }

  /** Integer-only values print alike exactly when they are equal up to member order. */
  lemma CanonicalTextDecidesValue(a: Json, b: Json, path: string)
    requires WellFormed(a) && WellFormed(b) && IntegersOnly(a) && IntegersOnly(b)
    ensures Canonical(a, path).Success? && Canonical(b, path).Success?
    ensures Canonical(a, path) == Canonical(b, path) <==> Same(a, b)
  {
    CanonicalIffIntegersOnly(a, path);
    CanonicalIffIntegersOnly(b, path);
    if Canonical(a, path) == Canonical(b, path) {
      PrefixCode(a, path, b, path, "", "");
    }
    if Same(a, b) {
      SameCanonical(a, b, path);
    }
  }

  // --------------------------------------------------------------- writing

  lemma {:induction false} RenderedInsert(e: Entry<Json>, es: seq<Entry<Json>>, path: string)
    ensures Rendered(Insert(e, es), path)
            == Insert(Entry(e.key, Canonical(e.item, FieldPath(path, e.key))), Rendered(es, path))
  {
    if es != [] && KeyBefore(es[0].key, e.key) {
      RenderedInsert(e, es[1..], path);
    }
  }

  /** Sorting the members first or their texts afterwards is the same. */
  lemma {:induction false} RenderedSorted(es: seq<Entry<Json>>, path: string)
    ensures Rendered(SortByKey(es), path) == SortByKey(Rendered(es, path))
  {
    if es != [] {
      RenderedSorted(es[1..], path);
      RenderedInsert(es[0], SortByKey(es[1..]), path);
    }
  }

  function Prepend(done: string, rest: Rendering): Rendering {
    match rest
    case Success(text) => Success(done + text)
    case Failure(_) => rest
  }

  lemma PrependNothing(r: Rendering)
    ensures Prepend("", r) == r
  {
    if r.Success? {
      assert "" + r.value == r.value;
    }
  }

  /** One more piece has been written in front of the rest. */
  lemma Advance(done: string, piece: Rendering, rest: Rendering, whole: Rendering)
    requires piece.Success? ==> whole == Prepend(piece.value, rest)
    ensures piece.Success? ==> Prepend(done, whole) == Prepend(done + piece.value, rest)
  {
    if piece.Success? && rest.Success? {
      assert done + (piece.value + rest.value) == done + piece.value + rest.value;
    }
  }

  function ItemPiece(items: seq<Json>, path: string, i: nat): Rendering
    requires i < |items|
  {
    var x :- Canonical(items[i], ItemPath(path, i));
    Success((if i > 0 then "," else "") + x)
  }

  lemma ItemsAdvance(items: seq<Json>, path: string, i: nat, done: string)
    requires i < |items|
    ensures var piece, whole := ItemPiece(items, path, i), Prepend(done, Items(items[i..], path, i));
            whole == if piece.Success? then Prepend(done + piece.value, Items(items[i + 1..], path, i + 1)) else piece
  {
    assert items[i..][0] == items[i] && items[i..][1..] == items[i + 1..];
    Advance(done, ItemPiece(items, path, i), Items(items[i + 1..], path, i + 1), Items(items[i..], path, i));
  }

  function FieldPiece(es: seq<Entry<Rendering>>, i: nat): Rendering
    requires i < |es|
  {
    var x :- es[i].item;
    Success((if i > 0 then "," else "") + Quote(es[i].key) + ":" + x)
  }

  lemma FieldsAdvance(es: seq<Entry<Rendering>>, i: nat, done: string)
    requires i < |es|
    ensures var piece, whole := FieldPiece(es, i), Prepend(done, Fields(es[i..], i == 0));
            whole == if piece.Success? then Prepend(done + piece.value, Fields(es[i + 1..], false)) else piece
  {
    assert es[i..][0] == es[i] && es[i..][1..] == es[i + 1..];
    Advance(done, FieldPiece(es, i), Fields(es[i + 1..], false), Fields(es[i..], i == 0));
  }

  lemma {:induction false} EscapeSnoc(s: string, c: char)
    ensures Escape(s + [c]) == Escape(s) + EscapeChar(c)
  {
    if s == [] {
      assert s + [c] == [c];
    } else {
      assert (s + [c])[0] == s[0] && (s + [c])[1..] == s[1..] + [c];
      EscapeSnoc(s[1..], c);
    }
  }

  /** The `&mut String` the writers append to. */
  class TextBuffer {
    var text: string

    constructor ()
      ensures text == ""
    {
      text := "";
    }

    method Push(s: string)
      modifies this
      ensures text == old(text) + s
    {
      text := text + s;
    }
  }

  method WriteString(s: string, out: TextBuffer)
    modifies out
    ensures out.text == old(out.text) + Quote(s)
  {
    out.Push("\"");
    WriteEscaped(s, out);
    out.Push("\"");
    Enclose(old(out.text), Escape(s));
  }

  lemma Enclose(start: string, x: string)
    ensures start + "\"" + x + "\"" == start + ("\"" + x + "\"")
  {
  }

  method WriteEscaped(s: string, out: TextBuffer)
    modifies out
    ensures out.text == old(out.text) + Escape(s)
  {
    ghost var done := "";
    for i := 0 to |s|
      invariant out.text == old(out.text) + done && done == Escape(s[..i])
    {
      EscapeSnoc(s[..i], s[i]);
      assert s[..i] + [s[i]] == s[..i + 1];
      out.Push(EscapeChar(s[i]));
      done := Appended(old(out.text), done, EscapeChar(s[i]));
    }
    assert s[..|s|] == s;
  }

  /** Appending twice is appending the concatenation. */
  lemma Appended(start: string, done: string, x: string) returns (longer: string)
    ensures longer == done + x && start + done + x == start + longer
  {
    longer := done + x;
  }

  method WriteNumber(text: string, path: string, out: TextBuffer) returns (r: Result<Unit, CanonError>)
    modifies out
    ensures Writes(Canonical(Number(text), path), old(out.text), out.text, r)
  {
    if '.' in text || 'e' in text || 'E' in text {
      return Failure(NonIntegerNumber(text, path));
    }
    out.Push(text);
    return Success(Unit);
  }

  /** The writer appended exactly the expected text, or reported the expected error. */
  predicate Writes(expected: Rendering, before: string, after: string, r: Result<Unit, CanonError>) {
    match expected
    case Success(text) => r.Success? && after == before + text
    case Failure(e) => r == Failure(e)
  }

  method WriteValue(value: Json, path: string, out: TextBuffer) returns (r: Result<Unit, CanonError>)
    modifies out
    ensures Writes(Canonical(value, path), old(out.text), out.text, r)
    decreases value, 2
  {
    match value
    case Null => out.Push("null"); r := Success(Unit);
    case Bool(b) => out.Push(if b then "true" else "false"); r := Success(Unit);
    case Number(text) => r := WriteNumber(text, path, out);
    case String(s) => WriteString(s, out); r := Success(Unit);
    case Array(items) => r := WriteArray(value, path, out);
    case Object(members) => r := WriteObject(value, path, out);
  }

  method WriteArray(value: Json, path: string, out: TextBuffer) returns (r: Result<Unit, CanonError>)
    requires value.Array?
    modifies out
    ensures Writes(Canonical(value, path), old(out.text), out.text, r)
    decreases value, 1
  {
    out.Push("[");
    r := WriteItems(value, path, out);
    if r.Failure? {
      return r;
    }
    Wrapped(old(out.text), "[", Items(value.items, path, 0).value, "]");
    out.Push("]");
  }

  method WriteItems(value: Json, path: string, out: TextBuffer) returns (r: Result<Unit, CanonError>)
    requires value.Array?
    modifies out
    ensures Writes(Items(value.items, path, 0), old(out.text), out.text, r)
    decreases value, 0
  {
    var items := value.items;
    ghost var done := "";
    PrependNothing(Items(items, path, 0));
    assert items[0..] == items;
    for i := 0 to |items|
      invariant out.text == old(out.text) + done
      invariant Items(items, path, 0) == Prepend(done, Items(items[i..], path, i))
    {
      ItemsAdvance(items, path, i, done);
      r := WriteItem(items, i, path, out);
      if r.Failure? {
        return r;
      }
      done := Appended(old(out.text), done, ItemPiece(items, path, i).value);
    }
    assert items[|items|..] == [] && done + "" == done;
    r := Success(Unit);
  }

  /** One element behind its comma. */
  method WriteItem(items: seq<Json>, i: nat, path: string, out: TextBuffer) returns (r: Result<Unit, CanonError>)
    requires i < |items|
    modifies out
    ensures Writes(ItemPiece(items, path, i), old(out.text), out.text, r)
    decreases items[i], 3
  {
    if i > 0 {
      out.Push(",");
    }
    r := WriteValue(items[i], ItemPath(path, i), out);
  }

  lemma Wrapped(start: string, open: string, done: string, close: string)
    ensures start + open + done + close == start + (open + done + close)
  {
  }

  method WriteKey(key: string, comma: bool, out: TextBuffer)
    modifies out
    ensures out.text == old(out.text) + ((if comma then "," else "") + Quote(key) + ":")
  {
    if comma {
      out.Push(",");
    }
    WriteString(key, out);
    out.Push(":");
    KeyText(old(out.text), if comma then "," else "", Quote(key));
  }

  lemma KeyText(start: string, comma: string, q: string)
    ensures start + comma + q + ":" == start + (comma + q + ":")
  {
  }

  /** One member: its comma, its quoted key, a colon and its value. */
  method WriteField(e: Entry<Json>, comma: bool, path: string, out: TextBuffer) returns (r: Result<Unit, CanonError>)
    modifies out
    ensures var x := Canonical(e.item, FieldPath(path, e.key));
            Writes(Prepend((if comma then "," else "") + Quote(e.key) + ":", x), old(out.text), out.text, r)
    decreases e.item, 3
  {
    WriteKey(e.key, comma, out);
    ghost var keyed := out.text;
    r := WriteValue(e.item, FieldPath(path, e.key), out);
    ghost var x := Canonical(e.item, FieldPath(path, e.key));
    if x.Success? {
      ghost var _ := Appended(old(out.text), (if comma then "," else "") + Quote(e.key) + ":", x.value);
    }
  }

  method WriteObject(value: Json, path: string, out: TextBuffer) returns (r: Result<Unit, CanonError>)
    requires value.Object?
    modifies out
    ensures Writes(Canonical(value, path), old(out.text), out.text, r)
    decreases value, 1
  {
    var pairs := SortByKey(value.members);
    RenderedSorted(value.members, path);
    SortKeeps(value.members);
    out.Push("{");
    r := WriteFields(value, pairs, path, out);
    if r.Failure? {
      return r;
    }
    ghost var done := Fields(Rendered(pairs, path), true).value;
    Wrapped(old(out.text), "{", done, "}");
    out.Push("}");
  }

  method WriteFields(ghost value: Json, pairs: seq<Entry<Json>>, path: string, out: TextBuffer)
    returns (r: Result<Unit, CanonError>)
    requires value.Object? && forall e | e in pairs :: e in value.members
    modifies out
    ensures Writes(Fields(Rendered(pairs, path), true), old(out.text), out.text, r)
    decreases value, 0
  {
    ghost var es := Rendered(pairs, path);
    ghost var done := "";
    PrependNothing(Fields(es, true));
    assert es[0..] == es;
    for i := 0 to |pairs|
      invariant out.text == old(out.text) + done
      invariant Fields(es, true) == Prepend(done, Fields(es[i..], i == 0))
    {
      FieldsAdvance(es, i, done);
      assert pairs[i] in value.members;
      r := WriteField(pairs[i], i > 0, path, out);
      if r.Failure? {
        return r;
      }
      done := Appended(old(out.text), done, FieldPiece(es, i).value);
    }
    assert es[|pairs|..] == [] && done + "" == done;
    r := Success(Unit);
  }

  method CanonicalJson(value: Json) returns (r: Rendering)
    ensures r == Canonical(value, "$")
  {
    var out := new TextBuffer();
    var w := WriteValue(value, "$", out);
    PrependNothing(Canonical(value, "$"));
    match w
    case Success(_) => return Success(out.text);
    case Failure(e) => return Failure(e);
  }
}
