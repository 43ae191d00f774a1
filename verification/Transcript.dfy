/**
 Comparing transcripts of two parties (`tests/common/mod.rs`): frames are written in canonical
 form, one to a line, with the values of named volatile fields replaced by the ordinals of
 their first occurrence.
 */
module Transcripts {
  import opened Collections
  import opened Wrappers
  import opened Text
  import opened Canon
  import opened Envelope

  datatype Direction = AToB | BToA

  datatype Frame = Frame(dir: Direction, envelope: Json)

  function DirName(dir: Direction): string {
    if dir.AToB? then "a>b" else "b>a"
  }

  // ------------------------------------------------------- first occurrences

  /** The distinct texts seen, in the order of their first occurrence. */
  function Grow(seen: seq<string>, x: Option<string>): seq<string> {
    if x.None? || x.value in seen then seen else seen + [x.value]
  }

  function Seen(xs: seq<Option<string>>): seq<string> {
    if xs == [] then [] else Grow(Seen(xs[..|xs| - 1]), xs[|xs| - 1])
  }

  function IndexIn(seen: seq<string>, x: string): nat {
    if seen == [] || seen[0] == x then 0 else 1 + IndexIn(seen[1..], x)
  }

  /** The ordinal of a text after those seen before it. */
  function Ordinal(seen: seq<string>, x: string): nat {
    IndexIn(seen, x) + 1
  }

  lemma {:induction false} IndexInIs(seen: seq<string>, x: string)
    ensures IndexIn(seen, x) <= |seen|
    ensures x in seen ==> IndexIn(seen, x) < |seen| && seen[IndexIn(seen, x)] == x
    ensures x !in seen ==> IndexIn(seen, x) == |seen|
  {
    if seen != [] && seen[0] != x {
      IndexInIs(seen[1..], x);
    }
  }

  lemma {:induction false} SeenDistinct(xs: seq<Option<string>>)
    ensures NoRepeats(Seen(xs))
    ensures forall x :: x in Seen(xs) <==> Some(x) in xs
  {
    if xs != [] {
      var n := |xs| - 1;
      SeenDistinct(xs[..n]);
      assert forall x :: x in xs <==> x in xs[..n] || x == xs[n];
    }
  }

  /** What has been seen keeps its place. */
  lemma {:induction false} SeenGrows(xs: seq<Option<string>>, n: nat)
    requires n <= |xs|
    ensures Seen(xs[..n]) <= Seen(xs)
    decreases |xs| - n
  {
    if n == |xs| {
      assert xs[..n] == xs;
    } else {
      assert xs[..n + 1][..n] == xs[..n];
      SeenGrows(xs, n + 1);
    }
  }

  function OrdinalAt(xs: seq<Option<string>>, i: nat): nat
    requires i < |xs| && xs[i].Some?
  {
    Ordinal(Seen(xs[..i]), xs[i].value)
  }

  /** An ordinal is the place of its text among all seen. */
  lemma OrdinalPlaces(xs: seq<Option<string>>, i: nat)
    requires i < |xs| && xs[i].Some?
    ensures 1 <= OrdinalAt(xs, i) <= |Seen(xs)| && Seen(xs)[OrdinalAt(xs, i) - 1] == xs[i].value
  {
    var before := Seen(xs[..i]);
    IndexInIs(before, xs[i].value);
    assert xs[..i + 1][..i] == xs[..i] && xs[..i + 1][i] == xs[i];
    SeenGrows(xs, i + 1);
    assert Seen(xs[..i + 1])[OrdinalAt(xs, i) - 1] == xs[i].value;
  }

  lemma OrdinalTells(xs: seq<Option<string>>, i: nat, j: nat)
    requires i < |xs| && j < |xs| && xs[i].Some? && xs[j].Some?
    ensures OrdinalAt(xs, i) == OrdinalAt(xs, j) <==> xs[i] == xs[j]
  {
    OrdinalPlaces(xs, i);
    OrdinalPlaces(xs, j);
    SeenDistinct(xs);
  }

  ghost predicate SamePresence(xs: seq<Option<string>>, ys: seq<Option<string>>) {
    |xs| == |ys| && forall i | 0 <= i < |xs| :: xs[i].Some? == ys[i].Some?
  }

  /** Equal here exactly where equal there: the values are renamed one to one. */
  ghost predicate Renamed(xs: seq<Option<string>>, ys: seq<Option<string>>) {
    SamePresence(xs, ys)
    && forall i, j | 0 <= i < |xs| && 0 <= j < |xs| && xs[i].Some? && xs[j].Some? :: xs[i] == xs[j] <==> ys[i] == ys[j]
  }

  ghost predicate SameOrdinals(xs: seq<Option<string>>, ys: seq<Option<string>>)
    requires SamePresence(xs, ys)
  {
    forall i | 0 <= i < |xs| && xs[i].Some? :: OrdinalAt(xs, i) == OrdinalAt(ys, i)
  }

  lemma {:induction false} RenamedCounts(xs: seq<Option<string>>, ys: seq<Option<string>>, n: nat)
    requires Renamed(xs, ys) && n <= |xs|
    ensures |Seen(xs[..n])| == |Seen(ys[..n])|
    ensures forall i | 0 <= i < n && xs[i].Some? :: OrdinalAt(xs, i) == OrdinalAt(ys, i)
  {
    if n > 0 {
      var k := n - 1;
      RenamedCounts(xs, ys, k);
      assert xs[..n][..k] == xs[..k] && ys[..n][..k] == ys[..k];
      if xs[k].Some? {
        RepeatTogether(xs, ys, k);
        IndexInIs(Seen(xs[..k]), xs[k].value);
        IndexInIs(Seen(ys[..k]), ys[k].value);
        if j :| 0 <= j < k && xs[j] == xs[k] {
          OrdinalTells(xs, j, k);
          OrdinalTells(ys, j, k);
        }
      }
    }
  }

  lemma RepeatTogether(xs: seq<Option<string>>, ys: seq<Option<string>>, k: nat)
    requires Renamed(xs, ys) && k < |xs| && xs[k].Some?
    ensures xs[k].value in Seen(xs[..k]) <==> exists j :: 0 <= j < k && xs[j] == xs[k]
    ensures ys[k].value in Seen(ys[..k]) <==> exists j :: 0 <= j < k && xs[j] == xs[k]
  {
    SeenDistinct(xs[..k]);
    SeenDistinct(ys[..k]);
    assert xs[k] in xs[..k] <==> exists j :: 0 <= j < k && xs[j] == xs[k];
    assert ys[k] in ys[..k] <==> exists j :: 0 <= j < k && ys[j] == ys[k];
    forall j | 0 <= j < k ensures ys[j] == ys[k] <==> xs[j] == xs[k] {
    }
  }

  /** Numbering by first occurrence forgets exactly the names of the values. */
  lemma OrdinalsForgetNames(xs: seq<Option<string>>, ys: seq<Option<string>>)
    requires SamePresence(xs, ys)
    ensures SameOrdinals(xs, ys) <==> Renamed(xs, ys)
  {
    if Renamed(xs, ys) {
      RenamedCounts(xs, ys, |xs|);
    }
    if SameOrdinals(xs, ys) {
      forall i, j | 0 <= i < |xs| && 0 <= j < |xs| && xs[i].Some? && xs[j].Some? ensures xs[i] == xs[j] <==> ys[i] == ys[j] {
        OrdinalTells(xs, i, j);
        OrdinalTells(ys, i, j);
      }
    }
  }

  // ----------------------------------------------------------------- masking

  function Placeholder(field: string, n: nat): string {
    "<<" + field + "#" + Decimal(n) + ">>"
  }

  lemma PlaceholderTells(field: string, m: nat, n: nat)
    ensures Placeholder(field, m) == Placeholder(field, n) <==> m == n
  {
    if Placeholder(field, m) == Placeholder(field, n) {
      var k := |"<<" + field + "#"|;
      var x, y := Placeholder(field, m), Placeholder(field, n);
      assert x[k..|x| - 2] == Decimal(m) && y[k..|y| - 2] == Decimal(n);
      DecimalInjective(m, n);
    }
  }

  /** Members named in `volatile` carry a tag instead of their value. */
  function MaskMembers(ms: seq<Entry<Json>>, volatile: seq<string>, tag: string -> string): (r: seq<Entry<Json>>)
    ensures |r| == |ms|
    ensures forall i | 0 <= i < |ms| ::
              r[i].key == ms[i].key && r[i].item == if ms[i].key in volatile then String(tag(ms[i].key)) else ms[i].item
  {
    if ms == [] then []
    else
      [Entry(ms[0].key, if ms[0].key in volatile then String(tag(ms[0].key)) else ms[0].item)] + MaskMembers(ms[1..], volatile, tag)
  }

  function Mask(e: Json, volatile: seq<string>, tag: string -> string): Json {
    if e.Object? then Object(MaskMembers(e.members, volatile, tag)) else e
  }

  /** An envelope without the values of its volatile fields. */
  function Blank(e: Json, volatile: seq<string>): Json {
    Mask(e, volatile, (field: string) => "")
  }

  predicate HasKey(e: Json, field: string) {
    e.Object? && exists i :: 0 <= i < |e.members| && e.members[i].key == field
  }

  lemma MaskKeepsForm(e: Json, volatile: seq<string>, tag: string -> string)
    ensures WellFormed(e) ==> WellFormed(Mask(e, volatile, tag))
    ensures IntegersOnly(e) ==> IntegersOnly(Mask(e, volatile, tag))
  {
    if e.Object? {
      var ms, rs := e.members, MaskMembers(e.members, volatile, tag);
      forall i | 0 <= i < |ms|
        ensures WellFormed(ms[i].item) ==> WellFormed(rs[i].item)
        ensures IntegersOnly(ms[i].item) ==> IntegersOnly(rs[i].item)
      {
      }
    }
  }

  ghost predicate TagsAgree(e: Json, volatile: seq<string>, t: string -> string, u: string -> string) {
    forall field | field in volatile && HasKey(e, field) :: t(field) == u(field)
  }

  /** Member `j` of `ns` is the one that stands for a member with this key and value. */
  ghost predicate StandsAt(ns: seq<Entry<Json>>, j: int, key: string, item: Json) {
    0 <= j < |ns| && ns[j].key == key && Same(item, ns[j].item)
  }

  ghost predicate Stands(ns: seq<Entry<Json>>, key: string, item: Json) {
    exists j :: StandsAt(ns, j, key, item)
  }

  lemma ObjectsSame(ms: seq<Entry<Json>>, ns: seq<Entry<Json>>)
    ensures Same(Object(ms), Object(ns))
            <==> |ms| == |ns| && forall i | 0 <= i < |ms| :: Stands(ns, ms[i].key, ms[i].item)
  {
    forall i | 0 <= i < |ms|
      ensures HasMember(ns, ms[i].key, ms[i].item) == Stands(ns, ms[i].key, ms[i].item)
    {
      MemberStands(ns, ms[i].key, ms[i].item);
    }
  }

  lemma MemberStands(ns: seq<Entry<Json>>, key: string, item: Json)
    ensures HasMember(ns, key, item) == Stands(ns, key, item)
  {
    if HasMember(ns, key, item) {
      var j :| 0 <= j < |ns| && key == ns[j].key && Same(item, ns[j].item);
      assert StandsAt(ns, j, key, item);
    }
    if j :| StandsAt(ns, j, key, item) {
      assert key == ns[j].key && Same(item, ns[j].item);
    }
  }

  lemma StringsSame(x: string, y: string)
    ensures Same(String(x), String(y)) <==> x == y
  {
  }

  /** Two masked members agree when the blank ones do and their tags do. */
  lemma MembersAlike(
      ms: seq<Entry<Json>>, ns: seq<Entry<Json>>, volatile: seq<string>, t: string -> string, u: string -> string, i: nat, j: nat)
    requires i < |ms| && j < |ns|
    ensures var blank := (field: string) => "";
            var m, n := MaskMembers(ms, volatile, t)[i], MaskMembers(ns, volatile, u);
            var b, c := MaskMembers(ms, volatile, blank)[i], MaskMembers(ns, volatile, blank);
            StandsAt(n, j, m.key, m.item) <==> StandsAt(c, j, b.key, b.item) && (ms[i].key in volatile ==> t(ms[i].key) == u(ms[i].key))
  {
    hide Same;
    StringsSame(t(ms[i].key), u(ms[i].key));
    StringsSame("", "");
  }

  /** Masked envelopes are equal exactly when they are equal without the masked values and tagged alike. */
  lemma MaskedSame(d: Json, e: Json, volatile: seq<string>, t: string -> string, u: string -> string)
    ensures Same(Mask(d, volatile, t), Mask(e, volatile, u))
            <==> Same(Blank(d, volatile), Blank(e, volatile)) && TagsAgree(d, volatile, t, u)
  {
    if d.Object? && e.Object? {
      MaskedObjectsSame(d, e, volatile, t, u);
    } else {
      NoTags(d, e, volatile, t, u);
    }
  }

  lemma NoTags(d: Json, e: Json, volatile: seq<string>, t: string -> string, u: string -> string)
    requires !d.Object? || !e.Object?
    ensures Same(Mask(d, volatile, t), Mask(e, volatile, u)) == Same(Blank(d, volatile), Blank(e, volatile))
    ensures d.Object? ==> !Same(Blank(d, volatile), Blank(e, volatile))
    ensures !d.Object? ==> TagsAgree(d, volatile, t, u)
  {
  }

  lemma MaskedObjectsSame(d: Json, e: Json, volatile: seq<string>, t: string -> string, u: string -> string)
    requires d.Object? && e.Object?
    ensures Same(Mask(d, volatile, t), Mask(e, volatile, u))
            <==> Same(Blank(d, volatile), Blank(e, volatile)) && TagsAgree(d, volatile, t, u)
  {
    hide Same, StandsAt;
    var blank := (field: string) => "";
    var ms, ns := MaskMembers(d.members, volatile, t), MaskMembers(e.members, volatile, u);
    var bs, cs := MaskMembers(d.members, volatile, blank), MaskMembers(e.members, volatile, blank);
    ObjectsSame(ms, ns);
    ObjectsSame(bs, cs);
    forall i, j | 0 <= i < |ms| && 0 <= j < |ns|
      ensures StandsAt(ns, j, ms[i].key, ms[i].item)
              <==> StandsAt(cs, j, bs[i].key, bs[i].item)
                   && (d.members[i].key in volatile ==> t(d.members[i].key) == u(d.members[i].key))
    {
      MembersAlike(d.members, e.members, volatile, t, u, i, j);
    }
    forall i | 0 <= i < |ms|
      ensures Stands(ns, ms[i].key, ms[i].item)
              <==> Stands(cs, bs[i].key, bs[i].item)
                   && (d.members[i].key in volatile ==> t(d.members[i].key) == u(d.members[i].key))
    {
      if j :| StandsAt(ns, j, ms[i].key, ms[i].item) {
        StandsInRange(ns, j, ms[i].key, ms[i].item);
        assert StandsAt(cs, j, bs[i].key, bs[i].item);
      }
      if j :| StandsAt(cs, j, bs[i].key, bs[i].item) {
        StandsInRange(cs, j, bs[i].key, bs[i].item);
        assert StandsAt(ns, j, ms[i].key, ms[i].item) <==> (d.members[i].key in volatile ==> t(d.members[i].key) == u(d.members[i].key));
      }
    }
    TagsByMember(d, volatile, t, u);
  }

  lemma StandsInRange(ns: seq<Entry<Json>>, j: int, key: string, item: Json)
    requires StandsAt(ns, j, key, item)
    ensures 0 <= j < |ns|
  {
  }

  lemma TagsByMember(d: Json, volatile: seq<string>, t: string -> string, u: string -> string)
    requires d.Object?
    ensures TagsAgree(d, volatile, t, u)
            <==> forall i | 0 <= i < |d.members| :: d.members[i].key in volatile ==> t(d.members[i].key) == u(d.members[i].key)
  {
    forall i | 0 <= i < |d.members| ensures HasKey(d, d.members[i].key) {
    }
  }

  // ------------------------------------------------------------------- lines

  /** The canonical text of a field's value, when the envelope has the field. */
  function TextOf(e: Json, field: string): Option<string> {
    if !e.Object? then None
    else
      var v :- Lookup(e.members, field);
      match Canonical(v, "$")
      case Success(text) => Some(text)
      case Failure(_) => None
  }

  lemma TextWhenPresent(e: Json, field: string)
    requires IntegersOnly(e)
    ensures TextOf(e, field).Some? <==> HasKey(e, field)
  {
    hide Canonical;
    if e.Object? {
      LookupMember(e.members, field);
      if Lookup(e.members, field).Some? {
        var v := Lookup(e.members, field).value;
        var i :| 0 <= i < |e.members| && e.members[i] == Entry(field, v);
        assert IntegersOnly(e.members[i].item);
        CanonicalIffIntegersOnly(v, "$");
      }
    }
  }

  /** One field over all frames. */
  function Column(frames: seq<Frame>, field: string): (r: seq<Option<string>>)
    ensures |r| == |frames| && forall i | 0 <= i < |frames| :: r[i] == TextOf(frames[i].envelope, field)
  {
    if frames == [] then [] else [TextOf(frames[0].envelope, field)] + Column(frames[1..], field)
  }

  function TagAt(frames: seq<Frame>, i: nat, field: string): string
    requires i < |frames|
  {
    if Column(frames, field)[i].Some? then Placeholder(field, OrdinalAt(Column(frames, field), i)) else ""
  }

  function Masked(frames: seq<Frame>, volatile: seq<string>, i: nat): Json
    requires i < |frames|
  {
    Mask(frames[i].envelope, volatile, (field: string) => TagAt(frames, i, field))
  }

  function FrameJson(dir: Direction, envelope: Json): Json {
    Object([Entry("dir", String(DirName(dir))), Entry("envelope", envelope)])
  }

  function Line(frames: seq<Frame>, volatile: seq<string>, i: nat): Rendering
    requires i < |frames|
  {
    Canonical(FrameJson(frames[i].dir, Masked(frames, volatile, i)), "$")
  }

  ghost predicate Good(frames: seq<Frame>) {
    forall i | 0 <= i < |frames| :: WellFormed(frames[i].envelope) && IntegersOnly(frames[i].envelope)
  }

  lemma FrameForm(dir: Direction, e: Json)
    ensures WellFormed(e) ==> WellFormed(FrameJson(dir, e))
    ensures IntegersOnly(FrameJson(dir, e)) <==> IntegersOnly(e)
  {
    var ms := FrameJson(dir, e).members;
    assert ms[0].item == String(DirName(dir)) && ms[1].item == e;
    assert |"dir"| == 3 && |"envelope"| == 8;
    assert IntegersOnly(ms[0].item) && WellFormed(ms[0].item);
  }

  /** Of two members with different keys only the one with this key can stand for it. */
  lemma StandsOnce(ns: seq<Entry<Json>>, k: nat, key: string, item: Json)
    requires |ns| == 2 && ns[0].key != ns[1].key && k < 2 && ns[k].key == key
    ensures Stands(ns, key, item) <==> Same(item, ns[k].item)
  {
    hide Same;
    if j :| StandsAt(ns, j, key, item) {
      assert j == k;
    }
    if Same(item, ns[k].item) {
      assert StandsAt(ns, k, key, item);
    }
  }

  lemma FrameSame(c: Direction, d: Json, dir: Direction, e: Json)
    ensures Same(FrameJson(c, d), FrameJson(dir, e)) <==> c == dir && Same(d, e)
  {
    hide Same, Stands;
    var ms, ns := FrameJson(c, d).members, FrameJson(dir, e).members;
    assert |"dir"| != |"envelope"|;
    assert "a>b"[0] != "b>a"[0];
    ObjectsSame(ms, ns);
    StringsSame(DirName(c), DirName(dir));
    StandsOnce(ns, 0, "dir", ms[0].item);
    StandsOnce(ns, 1, "envelope", ms[1].item);
  }

  // ---------------------------------------------------- one line to a frame

  predicate OneLine(s: string) {
    '\n' !in s
  }

  lemma {:induction false} EscapeOneLine(s: string)
    ensures OneLine(Escape(s))
  {
    if s != [] {
      EscapeOneLine(s[1..]);
    }
  }

  lemma {:induction false} CanonicalOneLine(v: Json, path: string)
    requires WellFormed(v) && Canonical(v, path).Success?
    ensures OneLine(Canonical(v, path).value)
    decreases v, 1, 0
  {
    match v
    case Number(text) =>
      forall i | 0 <= i < |text| ensures text[i] != '\n' {
        assert NumberChar(text[i]);
      }
    case String(s) => EscapeOneLine(s);
    case Array(items) => ItemsOneLine(v, path, 0);
    case Object(members) =>
      var rs := Rendered(members, path);
      forall r | r in rs && r.item.Success? ensures OneLine(r.item.value) {
        var i :| 0 <= i < |rs| && rs[i] == r;
        CanonicalOneLine(members[i].item, FieldPath(path, members[i].key));
      }
      SortKeeps(rs);
      FieldsOneLine(SortByKey(rs), true);
    case _ =>
  }

  lemma {:induction false} ItemsOneLine(v: Json, path: string, i: nat)
    requires v.Array? && WellFormed(v) && i <= |v.items| && Items(v.items[i..], path, i).Success?
    ensures OneLine(Items(v.items[i..], path, i).value)
    decreases v, 0, |v.items| - i
  {
    if i < |v.items| {
      assert v.items[i..][0] == v.items[i] && v.items[i..][1..] == v.items[i + 1..];
      CanonicalOneLine(v.items[i], ItemPath(path, i));
      ItemsOneLine(v, path, i + 1);
    }
  }

  lemma {:induction false} FieldsOneLine(es: seq<Entry<Rendering>>, first: bool)
    requires Fields(es, first).Success? && forall e | e in es && e.item.Success? :: OneLine(e.item.value)
    ensures OneLine(Fields(es, first).value)
  {
    if es != [] {
      assert forall e | e in es[1..] :: e in es;
      assert es[0] in es;
      EscapeOneLine(es[0].key);
      FieldsOneLine(es[1..], false);
    }
  }

  function Join(lines: seq<string>): string {
    if lines == [] then "" else if |lines| == 1 then lines[0] else lines[0] + "\n" + Join(lines[1..])
  }

  /** What follows the first line. */
  function RestOf(lines: seq<string>): string
    requires lines != []
  {
    if |lines| == 1 then "" else "\n" + Join(lines[1..])
  }

  lemma JoinSplits(lines: seq<string>)
    requires lines != []
    ensures Join(lines) == lines[0] + RestOf(lines)
    ensures RestOf(lines) != "" ==> RestOf(lines)[0] == '\n'
  {
    if |lines| > 1 {
      assert lines[0] + "\n" + Join(lines[1..]) == lines[0] + ("\n" + Join(lines[1..]));
    } else {
      assert lines[0] + "" == lines[0];
    }
  }

  lemma NotShorter(a: string, r: string, b: string, t: string)
    requires OneLine(b) && a + r == b + t && (r != "" ==> r[0] == '\n')
    ensures |b| <= |a|
  {
    var all := a + r;
    assert forall i | 0 <= i < |b| :: all[i] == b[i] && b[i] in b;
    assert r != "" ==> all[|a|] == r[0];
    assert |all| == |a| + |r| == |b| + |t|;
  }

  /** A first line without a line break is found again in front of what follows it. */
  lemma FirstLine(a: string, r: string, b: string, t: string)
    requires OneLine(a) && OneLine(b) && a + r == b + t
    requires (r != "" ==> r[0] == '\n') && (t != "" ==> t[0] == '\n')
    ensures a == b && r == t
  {
    NotShorter(a, r, b, t);
    NotShorter(b, t, a, r);
    assert a == (a + r)[..|a|] && b == (b + t)[..|b|];
    assert r == (a + r)[|a|..] && t == (b + t)[|b|..];
  }

  ghost predicate Lined(lines: seq<string>) {
    forall i | 0 <= i < |lines| :: OneLine(lines[i]) && lines[i] != ""
  }

  lemma RestTail(lines: seq<string>)
    requires lines != []
    ensures if |lines| == 1 then RestOf(lines) == "" else RestOf(lines) != "" && RestOf(lines)[1..] == Join(lines[1..])
    ensures lines == [lines[0]] + lines[1..]
  {
    hide Join;
  }

  lemma FirstNotEmpty(lines: seq<string>)
    requires Lined(lines)
    ensures lines == [] <==> Join(lines) == ""
  {
    if lines != [] {
      JoinSplits(lines);
    }
  }

  lemma LinedTail(lines: seq<string>)
    requires Lined(lines) && lines != []
    ensures Lined(lines[1..]) && OneLine(lines[0])
  {
    hide OneLine;
  }

  /** Lines that are not empty and hold no line break are found again in their join. */
  lemma {:induction false} JoinTells(xs: seq<string>, ys: seq<string>)
    requires Lined(xs) && Lined(ys) && Join(xs) == Join(ys)
    ensures xs == ys
  {
    hide OneLine, Lined, Join, RestOf;
    FirstNotEmpty(xs);
    FirstNotEmpty(ys);
    if xs != [] {
      LinedTail(xs);
      LinedTail(ys);
      JoinSplits(xs);
      JoinSplits(ys);
      FirstLine(xs[0], RestOf(xs), ys[0], RestOf(ys));
      RestTail(xs);
      RestTail(ys);
      if |xs| > 1 {
        JoinTells(xs[1..], ys[1..]);
      }
    }
  }

  // -------------------------------------------------------------- comparing

  /** The lines of the first `n` frames. */
  function Lines(frames: seq<Frame>, volatile: seq<string>, n: nat): (r: seq<string>)
    requires n <= |frames|
    ensures |r| == n
  {
    if n == 0 then [] else Lines(frames, volatile, n - 1) + [LineText(frames, volatile, n - 1)]
  }

  lemma {:induction false} LinesAt(frames: seq<Frame>, volatile: seq<string>, n: nat, i: nat)
    requires i < n <= |frames|
    ensures Lines(frames, volatile, n)[i] == LineText(frames, volatile, i)
  {
    hide LineText;
    if i < n - 1 {
      LinesAt(frames, volatile, n - 1, i);
    }
  }

  function LineText(frames: seq<Frame>, volatile: seq<string>, i: nat): string
    requires i < |frames|
  {
    match Line(frames, volatile, i)
    case Success(text) => text
    case Failure(_) => ""
  }

  function Written(frames: seq<Frame>, volatile: seq<string>): string {
    Join(Lines(frames, volatile, |frames|))
  }

  lemma LineGood(frames: seq<Frame>, volatile: seq<string>, i: nat)
    requires i < |frames| && WellFormed(frames[i].envelope) && IntegersOnly(frames[i].envelope)
    ensures Line(frames, volatile, i).Success? && OneLine(LineText(frames, volatile, i)) && LineText(frames, volatile, i) != ""
    ensures WellFormed(Masked(frames, volatile, i)) && IntegersOnly(Masked(frames, volatile, i))
  {
    hide Canonical, Rendered, SortByKey, Fields, OneLine;
    var tag := (field: string) => TagAt(frames, i, field);
    MaskKeepsForm(frames[i].envelope, volatile, tag);
    var f := FrameJson(frames[i].dir, Masked(frames, volatile, i));
    FrameForm(frames[i].dir, Masked(frames, volatile, i));
    CanonicalIffIntegersOnly(f, "$");
    CanonicalOneLine(f, "$");
    ObjectTextNotEmpty(f);
  }

  lemma ObjectTextNotEmpty(v: Json)
    requires v.Object?
    ensures Canonical(v, "$").Success? ==> Canonical(v, "$").value != ""
  {
    hide Rendered, SortByKey, Fields;
  }

  lemma LinesGood(frames: seq<Frame>, volatile: seq<string>)
    requires Good(frames)
    ensures Lined(Lines(frames, volatile, |frames|))
  {
    hide OneLine, LineText, Lines;
    var lines := Lines(frames, volatile, |frames|);
    forall i | 0 <= i < |frames| ensures OneLine(lines[i]) && lines[i] != "" {
      LinesAt(frames, volatile, |frames|, i);
      LineGood(frames, volatile, i);
    }
  }

  /** Frames that go the same way and agree on all that is not volatile. */
  ghost predicate SameStable(x: Frame, y: Frame, volatile: seq<string>) {
    x.dir == y.dir && Same(Blank(x.envelope, volatile), Blank(y.envelope, volatile))
  }

  ghost predicate SameTags(xs: seq<Frame>, ys: seq<Frame>, volatile: seq<string>, i: nat)
    requires i < |xs| && i < |ys|
  {
    forall field | field in volatile && HasKey(xs[i].envelope, field) :: TagAt(xs, i, field) == TagAt(ys, i, field)
  }

  lemma LineTells(xs: seq<Frame>, ys: seq<Frame>, volatile: seq<string>, i: nat)
    requires Good(xs) && Good(ys) && i < |xs| && i < |ys|
    ensures LineText(xs, volatile, i) == LineText(ys, volatile, i)
            <==> SameStable(xs[i], ys[i], volatile) && SameTags(xs, ys, volatile, i)
  {
    hide Canonical, OneLine, Same, Mask, TagAt, WellFormed, IntegersOnly;
    LineGood(xs, volatile, i);
    LineGood(ys, volatile, i);
    var d, e := Masked(xs, volatile, i), Masked(ys, volatile, i);
    FrameForm(xs[i].dir, d);
    FrameForm(ys[i].dir, e);
    CanonicalTextDecidesValue(FrameJson(xs[i].dir, d), FrameJson(ys[i].dir, e), "$");
    FrameSame(xs[i].dir, d, ys[i].dir, e);
    MaskedSame(xs[i].envelope, ys[i].envelope, volatile,
               (field: string) => TagAt(xs, i, field), (field: string) => TagAt(ys, i, field));
  }

  /** Frames that agree on what is stable have the same volatile fields. */
  lemma SamePresenceAt(x: Frame, y: Frame, volatile: seq<string>, field: string)
    requires WellFormed(x.envelope) && IntegersOnly(x.envelope) && WellFormed(y.envelope) && IntegersOnly(y.envelope)
    requires SameStable(x, y, volatile)
    ensures TextOf(x.envelope, field).Some? == TextOf(y.envelope, field).Some?
  {
    hide Canonical;
    var blank := (name: string) => "";
    MaskKeepsForm(x.envelope, volatile, blank);
    MaskKeepsForm(y.envelope, volatile, blank);
    var d, e := Blank(x.envelope, volatile), Blank(y.envelope, volatile);
    CanonicalTextDecidesValue(d, e, "$");
    CanonicalTextDecidesValue(e, d, "$");
    TextWhenPresent(x.envelope, field);
    TextWhenPresent(y.envelope, field);
    if HasKey(x.envelope, field) {
      KeysCarry(x.envelope, y.envelope, volatile, field);
    }
    if HasKey(y.envelope, field) {
      KeysCarry(y.envelope, x.envelope, volatile, field);
    }
  }

  lemma KeysCarry(d: Json, e: Json, volatile: seq<string>, field: string)
    requires Same(Blank(d, volatile), Blank(e, volatile)) && HasKey(d, field)
    ensures HasKey(e, field)
  {
    hide Same;
    BothObjects(d, e, volatile);
    var ms, ns := Blank(d, volatile).members, Blank(e, volatile).members;
    ObjectsSame(ms, ns);
    var i :| 0 <= i < |d.members| && d.members[i].key == field;
    assert Stands(ns, ms[i].key, ms[i].item);
    var j :| StandsAt(ns, j, ms[i].key, ms[i].item);
    assert e.members[j].key == field;
  }

  lemma BothObjects(d: Json, e: Json, volatile: seq<string>)
    requires Same(Blank(d, volatile), Blank(e, volatile)) && d.Object?
    ensures e.Object?
  {
  }

  /**
   The same frames but for a one-to-one renaming of each volatile field's values: alike in
   direction and in everything stable, and equal in a volatile field wherever the other is.
   */
  ghost predicate Alike(xs: seq<Frame>, ys: seq<Frame>, volatile: seq<string>) {
    && |xs| == |ys| && (forall i | 0 <= i < |xs| :: SameStable(xs[i], ys[i], volatile))
    && forall field | field in volatile :: Renamed(Column(xs, field), Column(ys, field))
  }

  lemma TagsAreOrdinals(xs: seq<Frame>, ys: seq<Frame>, i: nat, field: string)
    requires i < |xs| && i < |ys| && Column(xs, field)[i].Some? && Column(ys, field)[i].Some?
    ensures TagAt(xs, i, field) == TagAt(ys, i, field) <==> OrdinalAt(Column(xs, field), i) == OrdinalAt(Column(ys, field), i)
  {
    hide OrdinalAt, Column;
    PlaceholderTells(field, OrdinalAt(Column(xs, field), i), OrdinalAt(Column(ys, field), i));
  }

  lemma ColumnsPresent(xs: seq<Frame>, ys: seq<Frame>, volatile: seq<string>, field: string)
    requires Good(xs) && Good(ys) && |xs| == |ys| && forall i | 0 <= i < |xs| :: SameStable(xs[i], ys[i], volatile)
    ensures SamePresence(Column(xs, field), Column(ys, field))
  {
    hide SameStable, TextOf, WellFormed, IntegersOnly;
    forall i | 0 <= i < |xs| ensures TextOf(xs[i].envelope, field).Some? == TextOf(ys[i].envelope, field).Some? {
      SamePresenceAt(xs[i], ys[i], volatile, field);
    }
  }

  /** A field is tagged alike in all frames. */
  ghost predicate FieldTags(xs: seq<Frame>, ys: seq<Frame>, field: string)
    requires |xs| == |ys|
  {
    forall i | 0 <= i < |xs| && HasKey(xs[i].envelope, field) :: TagAt(xs, i, field) == TagAt(ys, i, field)
  }

  lemma FieldTells(xs: seq<Frame>, ys: seq<Frame>, volatile: seq<string>, field: string)
    requires Good(xs) && Good(ys) && |xs| == |ys| && forall i | 0 <= i < |xs| :: SameStable(xs[i], ys[i], volatile)
    ensures FieldTags(xs, ys, field) <==> Renamed(Column(xs, field), Column(ys, field))
  {
    hide SameStable, TagAt, Renamed, OrdinalAt, TextOf, HasKey, WellFormed, IntegersOnly;
    ColumnsPresent(xs, ys, volatile, field);
    OrdinalsForgetNames(Column(xs, field), Column(ys, field));
    forall i | 0 <= i < |xs|
      ensures Column(xs, field)[i].Some? <==> HasKey(xs[i].envelope, field)
      ensures Column(xs, field)[i].Some? ==>
                (TagAt(xs, i, field) == TagAt(ys, i, field) <==> OrdinalAt(Column(xs, field), i) == OrdinalAt(Column(ys, field), i))
    {
      TextWhenPresent(xs[i].envelope, field);
      if Column(xs, field)[i].Some? {
        TagsAreOrdinals(xs, ys, i, field);
      }
    }
  }

  /** Tags agree in all frames exactly when every volatile field is renamed one to one. */
  lemma TagsTellRenaming(xs: seq<Frame>, ys: seq<Frame>, volatile: seq<string>)
    requires Good(xs) && Good(ys) && |xs| == |ys| && forall i | 0 <= i < |xs| :: SameStable(xs[i], ys[i], volatile)
    ensures (forall i | 0 <= i < |xs| :: SameTags(xs, ys, volatile, i))
            <==> forall field | field in volatile :: Renamed(Column(xs, field), Column(ys, field))
  {
    hide Good, SameStable, TagAt, Renamed, HasKey, Column;
    forall field | field in volatile ensures FieldTags(xs, ys, field) <==> Renamed(Column(xs, field), Column(ys, field)) {
      FieldTells(xs, ys, volatile, field);
    }
    TagsByField(xs, ys, volatile);
  }

  lemma TagsByField(xs: seq<Frame>, ys: seq<Frame>, volatile: seq<string>)
    requires |xs| == |ys|
    ensures (forall i | 0 <= i < |xs| :: SameTags(xs, ys, volatile, i)) <==> forall field | field in volatile :: FieldTags(xs, ys, field)
  {
    hide TagAt, HasKey;
    if forall field | field in volatile :: FieldTags(xs, ys, field) {
      forall i | 0 <= i < |xs| ensures SameTags(xs, ys, volatile, i) {
        forall field | field in volatile && HasKey(xs[i].envelope, field) ensures TagAt(xs, i, field) == TagAt(ys, i, field) {
          assert FieldTags(xs, ys, field);
        }
      }
    }
    if forall i | 0 <= i < |xs| :: SameTags(xs, ys, volatile, i) {
      forall field | field in volatile ensures FieldTags(xs, ys, field) {
        forall i | 0 <= i < |xs| && HasKey(xs[i].envelope, field) ensures TagAt(xs, i, field) == TagAt(ys, i, field) {
          assert SameTags(xs, ys, volatile, i);
        }
      }
    }
  }

  /**
   Two transcripts of integer-only frames are written alike exactly when they match up to a
   one-to-one renaming of each volatile field's values.
   */
  lemma TranscriptsCompare(xs: seq<Frame>, ys: seq<Frame>, volatile: seq<string>)
    requires Good(xs) && Good(ys)
    ensures Written(xs, volatile) == Written(ys, volatile) <==> Alike(xs, ys, volatile)
  {
    hide Good, SameStable, SameTags, LineText, Lined, Join, Renamed, Lines;
    LinesGood(xs, volatile);
    LinesGood(ys, volatile);
    if Written(xs, volatile) == Written(ys, volatile) {
      JoinTells(Lines(xs, volatile, |xs|), Lines(ys, volatile, |ys|));
      forall i | 0 <= i < |xs| ensures SameStable(xs[i], ys[i], volatile) && SameTags(xs, ys, volatile, i) {
        LinesAt(xs, volatile, |xs|, i);
        LinesAt(ys, volatile, |ys|, i);
        LineTells(xs, ys, volatile, i);
      }
      TagsTellRenaming(xs, ys, volatile);
    }
    if Alike(xs, ys, volatile) {
      TagsTellRenaming(xs, ys, volatile);
      forall i | 0 <= i < |xs| ensures Lines(xs, volatile, |xs|)[i] == Lines(ys, volatile, |ys|)[i] {
        LinesAt(xs, volatile, |xs|, i);
        LinesAt(ys, volatile, |ys|, i);
        LineTells(xs, ys, volatile, i);
      }
      assert Lines(xs, volatile, |xs|) == Lines(ys, volatile, |ys|);
    }
  }

  // ----------------------------------------------------------------- writing

  type Ordinals = map<(string, string), nat>

  /** The table of ordinals knows exactly what has been seen of a field. */
  ghost predicate TracksField(ordinals: Ordinals, field: string, seen: seq<string>) {
    forall t :: ((field, t) in ordinals <==> t in seen) && ((field, t) in ordinals ==> ordinals[(field, t)] == Ordinal(seen, t))
  }

  lemma {:induction false} TrackedCount(ordinals: Ordinals, field: string, seen: seq<string>)
    requires TracksField(ordinals, field, seen) && NoRepeats(seen)
    ensures |set key | key in ordinals && key.0 == field| == |seen|
  {
    var keys := set key | key in ordinals && key.0 == field;
    var pairs := set t | t in seen :: (field, t);
    forall key | key in keys ensures key in pairs {
      assert key == (field, key.1);
    }
    assert keys == pairs;
    PairCount(field, seen);
  }

  lemma {:induction false} PairCount(field: string, seen: seq<string>)
    requires NoRepeats(seen)
    ensures |set t | t in seen :: (field, t)| == |seen|
  {
    if seen != [] {
      PairCount(field, seen[1..]);
      var rest := set t | t in seen[1..] :: (field, t);
      assert (set t | t in seen :: (field, t)) == rest + {(field, seen[0])};
    }
  }

  lemma {:induction false} IndexGrow(seen: seq<string>, x: string, t: string)
    requires t in seen || t == x
    ensures IndexIn(seen + [x], t) == IndexIn(seen, t)
  {
    if seen != [] && seen[0] != t {
      assert (seen + [x])[1..] == seen[1..] + [x];
      IndexGrow(seen[1..], x, t);
    }
  }

  lemma TracksMore(ordinals: Ordinals, field: string, seen: seq<string>, x: string)
    requires TracksField(ordinals, field, seen)
    ensures var ordinals' := if (field, x) in ordinals then ordinals else ordinals[(field, x) := |seen| + 1];
            TracksField(ordinals', field, Grow(seen, Some(x))) && ordinals'[(field, x)] == Ordinal(seen, x)
  {
    IndexInIs(seen, x);
    forall t | t in seen || t == x ensures IndexIn(seen + [x], t) == IndexIn(seen, t) {
      IndexGrow(seen, x, t);
    }
  }

  function PutMember(ms: seq<Entry<Json>>, key: string, item: Json): seq<Entry<Json>> {
    if ms == [] then [] else if ms[0].key == key then [Entry(key, item)] + ms[1..] else [ms[0]] + PutMember(ms[1..], key, item)
  }

  lemma {:induction false} PutMemberIs(ms: seq<Entry<Json>>, key: string, item: Json)
    requires DistinctKeys(ms)
    ensures |PutMember(ms, key, item)| == |ms|
    ensures forall i | 0 <= i < |ms| ::
              PutMember(ms, key, item)[i] == if ms[i].key == key then Entry(key, item) else ms[i]
  {
    if ms != [] && ms[0].key != key {
      PutMemberIs(ms[1..], key, item);
    }
  }

  lemma MaskOneMore(ms: seq<Entry<Json>>, fields: seq<string>, field: string, tag: string -> string)
    requires DistinctKeys(ms)
    ensures PutMember(MaskMembers(ms, fields, tag), field, String(tag(field))) == MaskMembers(ms, fields + [field], tag)
  {
    PutMemberIs(MaskMembers(ms, fields, tag), field, String(tag(field)));
  }

  lemma {:induction false} LookupUnmasked(ms: seq<Entry<Json>>, fields: seq<string>, field: string, tag: string -> string)
    requires field !in fields
    ensures Lookup(MaskMembers(ms, fields, tag), field) == Lookup(ms, field)
  {
    if ms != [] {
      LookupUnmasked(ms[1..], fields, field, tag);
      assert MaskMembers(ms, fields, tag)[1..] == MaskMembers(ms[1..], fields, tag);
    }
  }

  lemma MaskAbsent(e: Json, fields: seq<string>, field: string, tag: string -> string)
    requires e.Object? ==> Lookup(e.members, field).None?
    ensures Mask(e, fields + [field], tag) == Mask(e, fields, tag)
  {
    if e.Object? {
      LookupMember(e.members, field);
      assert MaskMembers(e.members, fields + [field], tag) == MaskMembers(e.members, fields, tag);
    }
  }

  ghost predicate Tracks(ordinals: Ordinals, frames: seq<Frame>, volatile: seq<string>, n: nat)
    requires n <= |frames|
  {
    forall field | field in volatile :: TracksField(ordinals, field, Seen(Column(frames, field)[..n]))
  }

  // What the loops compute, for any envelopes and any list of names.

  /** One field's value gives way to its ordinal: the one it has, or the next one of the field. */
  function PutOrdinal(ordinals: Ordinals, envelope: Json, field: string): Result<(Ordinals, Json), CanonError> {
    if !envelope.Object? || Lookup(envelope.members, field).None? then Success((ordinals, envelope))
    else
      var x :- Canonical(Lookup(envelope.members, field).value, "$");
      var next := |set key | key in ordinals && key.0 == field| + 1;
      var ordinals' := if (field, x) in ordinals then ordinals else ordinals[(field, x) := next];
      Success((ordinals', Object(PutMember(envelope.members, field, String(Placeholder(field, ordinals'[(field, x)]))))))
  }

  function PutOrdinals(ordinals: Ordinals, envelope: Json, fields: seq<string>): Result<(Ordinals, Json), CanonError>
    decreases |fields|
  {
    if fields == [] then Success((ordinals, envelope))
    else
      var masked :- PutOrdinal(ordinals, envelope, fields[0]);
      PutOrdinals(masked.0, masked.1, fields[1..])
  }

  function WriteLines(ordinals: Ordinals, frames: seq<Frame>, volatile: seq<string>): Result<seq<string>, CanonError>
    decreases |frames|
  {
    if frames == [] then Success([])
    else
      var masked :- PutOrdinals(ordinals, frames[0].envelope, volatile);
      var line :- Canonical(FrameJson(frames[0].dir, masked.1), "$");
      var rest :- WriteLines(masked.0, frames[1..], volatile);
      Success([line] + rest)
  }

  function RenderedText(frames: seq<Frame>, volatile: seq<string>): Result<string, CanonError> {
    var lines :- WriteLines(map[], frames, volatile);
    Success(Join(lines))
  }

  /** Masks one frame, field by field, carrying the ordinals on. */
  method MaskFrame(ordinals: Ordinals, envelope: Json, volatile: seq<string>) returns (r: Result<(Ordinals, Json), CanonError>)
    ensures r == PutOrdinals(ordinals, envelope, volatile)
  {
    hide PutOrdinal;
    var table, masked := ordinals, envelope;
    for j := 0 to |volatile|
      invariant PutOrdinals(ordinals, envelope, volatile) == PutOrdinals(table, masked, volatile[j..])
    {
      assert volatile[j..][0] == volatile[j] && volatile[j..][1..] == volatile[j + 1..];
      var next :- PutOrdinal(table, masked, volatile[j]);
      table, masked := next.0, next.1;
    }
    return Success((table, masked));
  }

  /** Writes a transcript, one masked frame to a line, or fails with the first number that is no integer. */
  method Render(frames: seq<Frame>, volatile: seq<string>) returns (r: Result<string, CanonError>)
    ensures r == RenderedText(frames, volatile)
  {
    hide Canonical, PutOrdinals;
    var ordinals: Ordinals, lines: seq<string> := map[], [];
    assert frames[0..] == frames && forall rest: seq<string> :: lines + rest == rest;
    for i := 0 to |frames|
      invariant WriteLines(map[], frames, volatile) == Prepended(lines, WriteLines(ordinals, frames[i..], volatile))
    {
      assert frames[i..][0] == frames[i] && frames[i..][1..] == frames[i + 1..];
      var masked :- MaskFrame(ordinals, frames[i].envelope, volatile);
      var line :- CanonicalJson(FrameJson(frames[i].dir, masked.1));
      assert forall rest: seq<string> :: lines + ([line] + rest) == lines + [line] + rest;
      ordinals := masked.0;
      lines := lines + [line];
    }
    assert lines + [] == lines;
    return Success(Join(lines));
  }

  function Prepended(lines: seq<string>, rest: Result<seq<string>, CanonError>): Result<seq<string>, CanonError> {
    match rest
    case Success(more) => Success(lines + more)
    case Failure(e) => Failure(e)
  }

  // What they amount to, when no name is given twice.

  /** Puts the ordinal of one field's value in its place, giving out the next one when it is new. */
  lemma MaskField(ordinals: Ordinals, envelope: Json, field: string, seen: seq<string>)
    requires TracksField(ordinals, field, seen) && NoRepeats(seen)
    ensures PutOrdinal(ordinals, envelope, field).Success? <==> FieldWritable(envelope, field)
    ensures var r := PutOrdinal(ordinals, envelope, field);
            r.Success? ==>
              match TextOf(envelope, field)
              case None => r.value == (ordinals, envelope)
              case Some(x) =>
                && TracksField(r.value.0, field, Grow(seen, Some(x)))
                && (forall key: (string, string) | key.0 != field :: key in r.value.0 <==> key in ordinals)
                && (forall key: (string, string) | key.0 != field && key in ordinals :: r.value.0[key] == ordinals[key])
                && r.value.1 == Object(PutMember(envelope.members, field, String(Placeholder(field, Ordinal(seen, x)))))
  {
    hide Canonical, Placeholder, PutMember, TracksField;
    if TextOf(envelope, field).Some? {
      TracksMore(ordinals, field, seen, TextOf(envelope, field).value);
      TrackedCount(ordinals, field, seen);
    }
  }

  /** The volatile values that are there can be written themselves. */
  ghost predicate ValuesWritable(e: Json, fields: seq<string>) {
    forall field | field in fields :: FieldWritable(e, field)
  }

  ghost predicate FieldWritable(e: Json, field: string) {
    e.Object? && Lookup(e.members, field).Some? ==> Canonical(Lookup(e.members, field).value, "$").Success?
  }

  lemma EnvelopeWritable(e: Json, volatile: seq<string>, tag: string -> string)
    requires WellFormed(e)
    ensures IntegersOnly(e) <==> ValuesWritable(e, volatile) && IntegersOnly(Mask(e, volatile, tag))
  {
    hide Canonical, WellFormed;
    if e.Object? {
      var ms, rs := e.members, MaskMembers(e.members, volatile, tag);
      WellFormedKeys(e);
      forall i | 0 <= i < |ms|
        ensures IntegersOnly(rs[i].item) <==> ms[i].key in volatile || IntegersOnly(ms[i].item)
        ensures FieldWritable(e, ms[i].key) <==> IntegersOnly(ms[i].item)
      {
        MemberWritable(e, i);
      }
      forall field | field !in volatile || !HasKey(e, field) ensures field in volatile ==> FieldWritable(e, field) {
        LookupMember(e.members, field);
      }
      assert IntegersOnly(e) <==> forall i | 0 <= i < |ms| :: IntegersOnly(ms[i].item);
      assert IntegersOnly(Mask(e, volatile, tag)) <==> forall i | 0 <= i < |ms| :: IntegersOnly(rs[i].item);
    }
  }

  lemma WellFormedKeys(e: Json)
    requires WellFormed(e) && e.Object?
    ensures DistinctKeys(e.members)
  {
  }

  lemma MemberWritable(e: Json, i: nat)
    requires e.Object? && DistinctKeys(e.members) && i < |e.members|
    ensures FieldWritable(e, e.members[i].key) <==> IntegersOnly(e.members[i].item)
  {
    hide Canonical;
    assert e.members[i] in e.members;
    LookupMember(e.members, e.members[i].key);
    CanonicalIffIntegersOnly(e.members[i].item, "$");
    var j :| 0 <= j < |e.members| && e.members[j] == Entry(e.members[i].key, Lookup(e.members, e.members[i].key).value);
    KeyDecides(e.members, i, j);
  }

  lemma TextUnmasked(e: Json, fields: seq<string>, field: string, tag: string -> string)
    requires field !in fields
    ensures TextOf(Mask(e, fields, tag), field) == TextOf(e, field)
    ensures FieldWritable(Mask(e, fields, tag), field) == FieldWritable(e, field)
  {
    hide Canonical;
    if e.Object? {
      LookupUnmasked(e.members, fields, field, tag);
    }
  }

  lemma SeenStep(xs: seq<Option<string>>, n: nat)
    requires n < |xs|
    ensures Seen(xs[..n + 1]) == Grow(Seen(xs[..n]), xs[n])
  {
    assert xs[..n + 1][..n] == xs[..n];
  }

  /** The first `j` fields are tracked up to and with frame `i`, the others up to it. */
  ghost predicate TracksPart(ordinals: Ordinals, frames: seq<Frame>, i: nat, volatile: seq<string>, j: nat)
    requires i < |frames| && j <= |volatile|
  {
    && (forall k | 0 <= k < j :: TracksField(ordinals, volatile[k], Seen(Column(frames, volatile[k])[..i + 1])))
    && (forall k | j <= k < |volatile| :: TracksField(ordinals, volatile[k], Seen(Column(frames, volatile[k])[..i])))
  }

  lemma MaskNothing(e: Json, tag: string -> string)
    ensures Mask(e, [], tag) == e
  {
    if e.Object? {
      assert MaskMembers(e.members, [], tag) == e.members;
    }
  }

  lemma FreshField(volatile: seq<string>, j: nat)
    requires NoRepeats(volatile) && j < |volatile|
    ensures volatile[j] !in volatile[..j]
  {
  }

  lemma OtherField(before: Ordinals, after: Ordinals, field: string, other: string, seen: seq<string>)
    requires TracksField(before, other, seen) && other != field
    requires forall key: (string, string) | key.0 != field :: key in after <==> key in before
    requires forall key: (string, string) | key.0 != field && key in before :: after[key] == before[key]
    ensures TracksField(after, other, seen)
  {
    forall t ensures (other, t) in after <==> (other, t) in before {
      assert (other, t).0 != field;
    }
  }

  /** One turn of the loop over the volatile fields. */
  lemma MaskOne(frames: seq<Frame>, i: nat, volatile: seq<string>, j: nat, table: Ordinals, envelope: Json)
    requires i < |frames| && WellFormed(frames[i].envelope) && j < |volatile| && NoRepeats(volatile)
    requires envelope == Mask(frames[i].envelope, volatile[..j], (field: string) => TagAt(frames, i, field))
    requires TracksPart(table, frames, i, volatile, j)
    ensures PutOrdinal(table, envelope, volatile[j]).Success? <==> FieldWritable(frames[i].envelope, volatile[j])
    ensures var r := PutOrdinal(table, envelope, volatile[j]);
            r.Success? ==>
              && r.value.1 == Mask(frames[i].envelope, volatile[..j + 1], (field: string) => TagAt(frames, i, field))
              && TracksPart(r.value.0, frames, i, volatile, j + 1)
  {
    hide WellFormed, TracksField, Placeholder, Seen, Canonical, Column, PutMember, MaskMembers, PutOrdinal;
    var e := frames[i].envelope;
    var tag := (name: string) => TagAt(frames, i, name);
    var field := volatile[j];
    FreshField(volatile, j);
    TextUnmasked(e, volatile[..j], field, tag);
    SeenDistinct(Column(frames, field)[..i]);
    SeenStep(Column(frames, field), i);
    assert volatile[..j + 1] == volatile[..j] + [field];
    MaskField(table, envelope, field, Seen(Column(frames, field)[..i]));
    var r := PutOrdinal(table, envelope, field);
    if r.Success? {
      if TextOf(e, field).Some? {
        WellFormedKeys(e);
        MaskOneMore(e.members, volatile[..j], field, tag);
        forall k | 0 <= k < j ensures TracksField(r.value.0, volatile[k], Seen(Column(frames, volatile[k])[..i + 1])) {
          OtherField(table, r.value.0, field, volatile[k], Seen(Column(frames, volatile[k])[..i + 1]));
        }
        forall k | j < k < |volatile| ensures TracksField(r.value.0, volatile[k], Seen(Column(frames, volatile[k])[..i])) {
          OtherField(table, r.value.0, field, volatile[k], Seen(Column(frames, volatile[k])[..i]));
        }
      } else {
        MaskAbsent(e, volatile[..j], field, tag);
      }
    }
  }

  lemma {:induction false} MaskRest(frames: seq<Frame>, i: nat, volatile: seq<string>, j: nat, table: Ordinals, envelope: Json)
    requires i < |frames| && WellFormed(frames[i].envelope) && j <= |volatile| && NoRepeats(volatile)
    requires envelope == Mask(frames[i].envelope, volatile[..j], (field: string) => TagAt(frames, i, field))
    requires TracksPart(table, frames, i, volatile, j)
    ensures var r := PutOrdinals(table, envelope, volatile[j..]);
            (r.Success? <==> forall k | j <= k < |volatile| :: FieldWritable(frames[i].envelope, volatile[k]))
            && (r.Success? ==> TracksPart(r.value.0, frames, i, volatile, |volatile|) && r.value.1 == Masked(frames, volatile, i))
    decreases |volatile| - j
  {
    hide WellFormed, TracksPart, FieldWritable, Mask, TagAt, PutOrdinal;
    if j == |volatile| {
      assert volatile[..j] == volatile;
    } else {
      MaskOne(frames, i, volatile, j, table, envelope);
      assert volatile[j..][0] == volatile[j] && volatile[j..][1..] == volatile[j + 1..];
      var r := PutOrdinal(table, envelope, volatile[j]);
      if r.Success? {
        MaskRest(frames, i, volatile, j + 1, r.value.0, r.value.1);
      }
    }
  }

  /** A frame's fields are masked exactly when their values have a text, each by its place among those seen so far. */
  lemma FrameMasked(ordinals: Ordinals, frames: seq<Frame>, i: nat, volatile: seq<string>)
    requires i < |frames| && WellFormed(frames[i].envelope) && NoRepeats(volatile) && Tracks(ordinals, frames, volatile, i)
    ensures var r := PutOrdinals(ordinals, frames[i].envelope, volatile);
            (r.Success? <==> ValuesWritable(frames[i].envelope, volatile))
            && (r.Success? ==> Tracks(r.value.0, frames, volatile, i + 1) && r.value.1 == Masked(frames, volatile, i))
  {
    hide WellFormed, TracksField, FieldWritable, Mask, TagAt, PutOrdinals, Seen, Column;
    MaskNothing(frames[i].envelope, (field: string) => TagAt(frames, i, field));
    assert volatile[..0] == [] && volatile[0..] == volatile;
    MaskRest(frames, i, volatile, 0, ordinals, frames[i].envelope);
  }

  lemma {:induction false} RestWritten(frames: seq<Frame>, volatile: seq<string>, i: nat, ordinals: Ordinals)
    requires NoRepeats(volatile) && (forall k | 0 <= k < |frames| :: WellFormed(frames[k].envelope))
    requires i <= |frames| && Tracks(ordinals, frames, volatile, i)
    ensures var r := WriteLines(ordinals, frames[i..], volatile);
            (r.Success? <==> forall k | i <= k < |frames| :: IntegersOnly(frames[k].envelope))
            && (r.Success? ==> Lines(frames, volatile, i) + r.value == Lines(frames, volatile, |frames|))
    decreases |frames| - i
  {
    hide WellFormed, IntegersOnly, Masked, Tracks, Canonical, ValuesWritable, PutOrdinals;
    if i < |frames| {
      FrameMasked(ordinals, frames, i, volatile);
      FrameWritable(frames, volatile, i);
      assert frames[i..][0] == frames[i] && frames[i..][1..] == frames[i + 1..];
      var masked := PutOrdinals(ordinals, frames[i].envelope, volatile);
      if masked.Success? {
        RestWritten(frames, volatile, i + 1, masked.value.0);
      }
    }
  }

  /** With no name given twice, a transcript is written exactly when all its numbers are integers, and then as numbered by first occurrence. */
  lemma RenderExact(frames: seq<Frame>, volatile: seq<string>)
    requires NoRepeats(volatile) && forall i | 0 <= i < |frames| :: WellFormed(frames[i].envelope)
    ensures RenderedText(frames, volatile).Success? <==> Good(frames)
    ensures Good(frames) ==> RenderedText(frames, volatile) == Success(Written(frames, volatile))
  {
    hide WellFormed, IntegersOnly, WriteLines, Join, LineText, Tracks;
    NothingTracked(frames, volatile);
    RestWritten(frames, volatile, 0, map[]);
    assert frames[0..] == frames;
    var r := WriteLines(map[], frames, volatile);
    if r.Success? {
      assert Lines(frames, volatile, 0) + r.value == r.value;
    }
  }

  lemma NothingTracked(frames: seq<Frame>, volatile: seq<string>)
    ensures Tracks(map[], frames, volatile, 0)
  {
  }

  lemma FrameWritable(frames: seq<Frame>, volatile: seq<string>, i: nat)
    requires i < |frames| && WellFormed(frames[i].envelope)
    ensures IntegersOnly(frames[i].envelope) <==> ValuesWritable(frames[i].envelope, volatile) && Line(frames, volatile, i).Success?
  {
    hide Canonical, WellFormed, ValuesWritable, Mask;
    EnvelopeWritable(frames[i].envelope, volatile, (field: string) => TagAt(frames, i, field));
    FrameForm(frames[i].dir, Masked(frames, volatile, i));
    CanonicalIffIntegersOnly(FrameJson(frames[i].dir, Masked(frames, volatile, i)), "$");
  }

  /** What is rendered of two transcripts of integer-only frames is equal exactly when they match up to renaming. */
  lemma RenderingsCompare(xs: seq<Frame>, ys: seq<Frame>, volatile: seq<string>)
    requires Good(xs) && Good(ys) && NoRepeats(volatile)
    ensures RenderedText(xs, volatile) == RenderedText(ys, volatile) <==> Alike(xs, ys, volatile)
  {
    hide RenderedText, Written, Alike;
    RenderExact(xs, volatile);
    RenderExact(ys, volatile);
    TranscriptsCompare(xs, ys, volatile);
  }
}
