/**
 Which number a refused value is refused for (`src/v2/canon.rs`): the first one in the order of
 writing that is no integer, named by the path that leads to it.
 */
module CanonFaults {
  import opened Wrappers
  import opened Text
  import opened Canon

  /** A way down into a value. */
  datatype Place = Here | Item(i: nat, rest: Place) | Field(key: string, rest: Place)

  /** How a place is written, from a path on. */
  function PathText(path: string, place: Place): string
    decreases place
  {
    match place
    case Here => path
    case Item(i, rest) => PathText(path + "[" + Decimal(i) + "]", rest)
    case Field(key, rest) => PathText(path + "." + key, rest)
  }

  /** At this place is a number with this text, no integer, and nothing written before it is at fault. */
  ghost predicate FirstFault(v: Json, place: Place, text: string)
    decreases place
  {
    match place
    case Here => v == Number(text) && ('.' in text || 'e' in text || 'E' in text)
    case Item(i, rest) =>
      v.Array? && i < |v.items| && (forall j | 0 <= j < i :: IntegersOnly(v.items[j])) && FirstFault(v.items[i], rest, text)
    case Field(key, rest) =>
      v.Object?
      && exists m | m in v.members :: m.key == key && FirstFault(m.item, rest, text)
                                      && forall n | n in v.members && KeyBefore(n.key, key) :: IntegersOnly(n.item)
  }

  /** A value that has no canonical text is refused for the first number at fault, under its path. */
  lemma {:induction false} FaultNamed(v: Json, path: string) returns (place: Place)
    requires WellFormed(v) && Canonical(v, path).Failure?
    ensures var e := Canonical(v, path).error;
            FirstFault(v, place, e.value) && e.path == PathText(path, place)
    decreases v, 1, 0
  {
    hide Items, Fields, Rendered, SortByKey;
    match v
    case Number(_) => place := Here;
    case Array(items) =>
      assert items[0..] == items;
      place := ItemFault(v, path, 0);
    case Object(members) =>
      var es := SortByKey(Rendered(members, path));
      SortedRenders(v, path);
      SortKeeps(Rendered(members, path));
      SortedFields(v, path);
      place := FieldFault(v, path, es, 0, true);
  }

  lemma {:induction false} ItemFault(v: Json, path: string, i: nat) returns (place: Place)
    requires WellFormed(v) && v.Array? && i <= |v.items| && Items(v.items[i..], path, i).Failure?
    requires forall j | 0 <= j < i :: IntegersOnly(v.items[j])
    ensures var e := Items(v.items[i..], path, i).error;
            FirstFault(v, place, e.value) && e.path == PathText(path, place)
    decreases v, 0, |v.items| - i
  {
    assert v.items[i..][0] == v.items[i] && v.items[i..][1..] == v.items[i + 1..];
    if Canonical(v.items[i], ItemPath(path, i)).Failure? {
      var inner := FaultNamed(v.items[i], ItemPath(path, i));
      place := Item(i, inner);
    } else {
      CanonicalIffIntegersOnly(v.items[i], ItemPath(path, i));
      place := ItemFault(v, path, i + 1);
    }
  }

  /** The rendered fields are all the members, in the order of their keys. */
  ghost predicate AllFields(v: Json, path: string, es: seq<Entry<Rendering>>)
    requires v.Object?
  {
    && Ascending(es) && RendersMembers(es, v, path)
    && forall m | m in v.members :: exists k :: 0 <= k < |es| && es[k].key == m.key
  }

  lemma SortedFields(v: Json, path: string)
    requires WellFormed(v) && v.Object?
    ensures AllFields(v, path, SortByKey(Rendered(v.members, path)))
  {
    hide Canonical, SortByKey;
    var rs := Rendered(v.members, path);
    var es := SortByKey(rs);
    SortAscending(rs);
    SortKeeps(rs);
    SortedRenders(v, path);
    forall m | m in v.members ensures exists k :: 0 <= k < |es| && es[k].key == m.key {
      var i := IndexOf(m, v.members);
      assert rs[i] in rs;
      var k := IndexOf(rs[i], es);
      assert es[k].key == m.key;
    }
  }

  lemma {:induction false} FieldFault(v: Json, path: string, es: seq<Entry<Rendering>>, i: nat, first: bool) returns (place: Place)
    requires WellFormed(v) && v.Object? && AllFields(v, path, es) && i <= |es| && Fields(es[i..], first).Failure?
    requires forall j | 0 <= j < i :: es[j].item.Success?
    ensures var e := Fields(es[i..], first).error;
            FirstFault(v, place, e.value) && e.path == PathText(path, place)
    decreases v, 0, |es| - i
  {
    hide Canonical, FirstFault, AllFields;
    assert es[i..][0] == es[i] && es[i..][1..] == es[i + 1..];
    if es[i].item.Failure? {
      var m := MemberOf(v, path, es, i);
      var inner := FaultNamed(m.item, FieldPath(path, m.key));
      place := Field(m.key, inner);
      forall n | n in v.members && KeyBefore(n.key, m.key) ensures IntegersOnly(n.item) {
        EarlierField(v, path, es, i, n);
      }
      FaultAtField(v, m, inner, es[i].item.error.value);
    } else {
      place := FieldFault(v, path, es, i + 1, false);
    }
  }

  lemma FaultAtField(v: Json, m: Entry<Json>, inner: Place, text: string)
    requires v.Object? && m in v.members && FirstFault(m.item, inner, text)
    requires forall n | n in v.members && KeyBefore(n.key, m.key) :: IntegersOnly(n.item)
    ensures FirstFault(v, Field(m.key, inner), text)
  {
  }

  lemma MemberOf(v: Json, path: string, es: seq<Entry<Rendering>>, k: nat) returns (m: Entry<Json>)
    requires v.Object? && AllFields(v, path, es) && k < |es|
    ensures m in v.members && es[k] == Entry(m.key, Canonical(m.item, FieldPath(path, m.key)))
  {
    hide Canonical, AllFields, RendersMembers;
    FieldRenders(v, path, es, k);
    m :| m in v.members && es[k] == Entry(m.key, Canonical(m.item, FieldPath(path, m.key)));
  }

  lemma FieldRenders(v: Json, path: string, es: seq<Entry<Rendering>>, k: nat)
    requires v.Object? && AllFields(v, path, es) && k < |es|
    ensures RendersMember(es[k], v, path) && Ascending(es)
  {
    hide RendersMember, KeyBefore;
  }

  lemma FieldOf(v: Json, path: string, es: seq<Entry<Rendering>>, n: Entry<Json>) returns (k: nat)
    requires v.Object? && AllFields(v, path, es) && n in v.members
    ensures k < |es| && es[k].key == n.key
  {
    hide RendersMember, RendersMembers, Ascending;
    k :| k < |es| && es[k].key == n.key;
  }

  lemma EarlierIndex(es: seq<Entry<Rendering>>, k: nat, i: nat)
    requires Ascending(es) && k < |es| && i < |es| && KeyBefore(es[k].key, es[i].key)
    ensures k < i
  {
    BytesBeforeStrict(Utf8(es[k].key), Utf8(es[i].key));
  }

  lemma EarlierField(v: Json, path: string, es: seq<Entry<Rendering>>, i: nat, n: Entry<Json>)
    requires WellFormed(v) && v.Object? && AllFields(v, path, es) && i < |es| && n in v.members && KeyBefore(n.key, es[i].key)
    requires forall j | 0 <= j < i :: es[j].item.Success?
    ensures IntegersOnly(n.item)
  {
    hide Canonical, WellFormed, IntegersOnly, AllFields, Ascending, KeyBefore;
    var k := FieldOf(v, path, es, n);
    FieldRenders(v, path, es, k);
    EarlierIndex(es, k, i);
    var m := MemberOf(v, path, es, k);
    OneMember(v, m, n);
    CanonicalIffIntegersOnly(n.item, FieldPath(path, n.key));
  }

  lemma OneMember(v: Json, m: Entry<Json>, n: Entry<Json>)
    requires WellFormed(v) && v.Object? && m in v.members && n in v.members && m.key == n.key
    ensures m == n
  {
    var i := IndexOf(m, v.members);
    var j := IndexOf(n, v.members);
    KeyDecides(v.members, i, j);
  }

  // --------------------------------------------------------------- numbers

  /** A JSON number, by its parts: a sign, digits, a fraction and an exponent, if any. */
  datatype Numeral = Numeral(minus: bool, digits: string, fraction: Option<string>, exponent: Option<(char, string)>)

  predicate Digits(s: string) {
    s != "" && forall c | c in s :: '0' <= c <= '9'
  }

  predicate ProperNumeral(n: Numeral) {
    && Digits(n.digits) && (n.fraction.Some? ==> Digits(n.fraction.value))
    && (n.exponent.Some? ==> (n.exponent.value.0 == 'e' || n.exponent.value.0 == 'E')
                             && forall c | c in n.exponent.value.1 :: '0' <= c <= '9' || c == '+' || c == '-')
  }

  function NumeralText(n: Numeral): string {
    (if n.minus then "-" else "") + n.digits
    + (if n.fraction.Some? then "." + n.fraction.value else "")
    + (if n.exponent.Some? then [n.exponent.value.0] + n.exponent.value.1 else "")
  }

  /** A number has a canonical form exactly when it has neither fraction nor exponent, and that is its own text, whatever its size. */
  lemma NumberExact(n: Numeral, path: string)
    requires ProperNumeral(n)
    ensures Canonical(Number(NumeralText(n)), path)
            == if n.fraction.None? && n.exponent.None? then Success((if n.minus then "-" else "") + n.digits)
               else Failure(NonIntegerNumber(NumeralText(n), path))
  {
    var sign := if n.minus then "-" else "";
    var text := NumeralText(n);
    if n.fraction.Some? {
      assert text[|sign + n.digits|] == '.';
    } else if n.exponent.Some? {
      assert text[|sign + n.digits|] == n.exponent.value.0;
    } else {
      assert text == sign + n.digits;
    }
  }
}
