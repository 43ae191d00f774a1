/**
 When the comparison of transcripts can be trusted (`tests/common/mod.rs`): exactly for lists
 that name no volatile field twice. A field named twice has its placeholders numbered along
 with its values, and a value that looks like one is taken for it.
 */
module RepeatedNames {
  import opened Collections
  import opened Wrappers
  import opened Canon
  import opened Envelope
  import opened Transcripts

  function One(f: string, v: Json): Json {
    Object([Entry(f, v)])
  }

  function TextIn(s: string): string {
    Quote(s)
  }

  lemma TextsTell(s: string, t: string)
    ensures TextIn(s) == TextIn(t) <==> s == t
  {
    hide Quote;
    CanonicalTextDecidesValue(String(s), String(t), "$");
    StringsSame(s, t);
  }

  /** The placeholder a value gets on a first pass, and what has been seen of the field then. */
  function FirstPass(f: string, seen: seq<string>, x: string): (string, seq<string>) {
    (Placeholder(f, Ordinal(seen, x)), Grow(seen, Some(x)))
  }

  lemma PassNew(f: string, seen: seq<string>, x: string)
    requires x !in seen
    ensures FirstPass(f, seen, x) == (Placeholder(f, |seen| + 1), seen + [x])
  {
    IndexInIs(seen, x);
  }

  lemma PassKnown(f: string, seen: seq<string>, k: nat)
    requires NoRepeats(seen) && k < |seen|
    ensures FirstPass(f, seen, seen[k]) == (Placeholder(f, k + 1), seen)
  {
    IndexInIs(seen, seen[k]);
  }

  lemma OnePass(table: Ordinals, f: string, v: Json, x: string, seen: seq<string>)
    requires TracksField(table, f, seen) && NoRepeats(seen) && Canonical(v, "$") == Success(x)
    ensures var r := PutOrdinal(table, One(f, v), f);
            var (p, after) := FirstPass(f, seen, x);
            r.Success? && r.value.1 == One(f, String(p)) && TracksField(r.value.0, f, after) && NoRepeats(after)
  {
    hide Canonical, TracksField, Placeholder, PutOrdinal;
    MaskField(table, One(f, v), f, seen);
    assert PutMember(One(f, v).members, f, String(FirstPass(f, seen, x).0)) == [Entry(f, String(FirstPass(f, seen, x).0))];
  }

  lemma NullText()
    ensures Canonical(Null, "$") == Success("null") && Canonical(Bool(true), "$") == Success("true")
  {
  }

  lemma NoneTracked(f: string)
    ensures TracksField(map[], f, [])
  {
  }

  lemma PlainTextsDiffer(s: string)
    ensures TextIn(s) != "null" && TextIn(s) != "true"
  {
    assert TextIn(s)[0] == '"';
  }

  lemma StringText(s: string)
    ensures Canonical(String(s), "$") == Success(TextIn(s))
  {
  }

  // --------------------------------------------------- masking many times

  function Count(l: seq<string>, f: string): nat {
    if l == [] then 0 else (if l[0] == f then 1 else 0) + Count(l[1..], f)
  }

  lemma {:induction false} CountedOnce(l: seq<string>, f: string, i: nat)
    requires i < |l| && l[i] == f
    ensures Count(l, f) >= 1
  {
    if i > 0 {
      CountedOnce(l[1..], f, i - 1);
    }
  }

  lemma {:induction false} CountedTwice(l: seq<string>, f: string, i: nat, j: nat)
    requires i < j < |l| && l[i] == f == l[j]
    ensures Count(l, f) >= 2
  {
    if i == 0 {
      CountedOnce(l[1..], f, j - 1);
    } else {
      CountedTwice(l[1..], f, i - 1, j - 1);
    }
  }

  /** The placeholder a value ends up as when it is masked `k` times, and what has been seen then. */
  function Passes(f: string, seen: seq<string>, x: string, k: nat): (string, seq<string>)
    requires k > 0
    decreases k
  {
    var (p, after) := FirstPass(f, seen, x);
    if k == 1 then (p, after) else Passes(f, after, TextIn(p), k - 1)
  }

  lemma NoOther(f: string, v: Json, name: string)
    requires name != f
    ensures Lookup(One(f, v).members, name) == None
  {
    assert One(f, v).members[1..] == [];
  }

  lemma OtherName(table: Ordinals, f: string, v: Json, name: string)
    requires name != f
    ensures PutOrdinal(table, One(f, v), name) == Success((table, One(f, v)))
  {
    NoOther(f, v, name);
  }

  /** A frame with one field goes through as many passes as the list has its name; other names do nothing. */
  lemma {:induction false} ManyPasses(table: Ordinals, f: string, v: Json, x: string, seen: seq<string>, l: seq<string>)
    requires TracksField(table, f, seen) && NoRepeats(seen) && Canonical(v, "$") == Success(x)
    ensures var r := PutOrdinals(table, One(f, v), l);
            if Count(l, f) == 0 then r == Success((table, One(f, v)))
            else
              var (q, after) := Passes(f, seen, x, Count(l, f));
              r.Success? && r.value.1 == One(f, String(q)) && TracksField(r.value.0, f, after) && NoRepeats(after)
    decreases |l|
  {
    hide Canonical, TracksField, Placeholder, PutOrdinal, FirstPass, Quote, One;
    if l != [] {
      if l[0] != f {
        OtherName(table, f, v, l[0]);
        ManyPasses(table, f, v, x, seen, l[1..]);
      } else {
        OnePass(table, f, v, x, seen);
        var r := PutOrdinal(table, One(f, v), f).value;
        var (p, after) := FirstPass(f, seen, x);
        StringText(p);
        ManyPasses(r.0, f, String(p), TextIn(p), after, l[1..]);
      }
    }
  }

  // ------------------------------------------------------------ the chain

  /** The text of a field's `n`th placeholder. */
  function TagText(f: string, n: nat): string {
    TextIn(Placeholder(f, n))
  }

  lemma TagTextsTell(f: string, m: nat, n: nat)
    ensures TagText(f, m) == TagText(f, n) <==> m == n
    ensures TagText(f, m) != "null" && TagText(f, m) != "true"
  {
    hide Placeholder, TextIn;
    PlaceholderTells(f, m, n);
    TextsTell(Placeholder(f, m), Placeholder(f, n));
    PlainTextsDiffer(Placeholder(f, m));
  }

  /** What has been seen after masking `null` so many times: it and its placeholders. */
  function Chain(f: string, k: nat): (r: seq<string>)
    requires k > 0
    ensures |r| == k
  {
    if k == 1 then ["null"] else Chain(f, k - 1) + [TagText(f, k - 1)]
  }

  lemma {:induction false} ChainAt(f: string, k: nat, i: nat)
    requires 0 < k && i < k
    ensures Chain(f, k)[i] == if i == 0 then "null" else TagText(f, i)
  {
    hide TagText;
    if k > 1 && i < k - 1 {
      ChainAt(f, k - 1, i);
    }
  }

  lemma ChainTexts(f: string, k: nat)
    requires k > 0
    ensures NoRepeats(Chain(f, k)) && "true" !in Chain(f, k)
    ensures forall n | n >= k :: TagText(f, n) !in Chain(f, k)
  {
    hide TagText;
    forall i | 0 <= i < k ensures Chain(f, k)[i] == if i == 0 then "null" else TagText(f, i) {
      ChainAt(f, k, i);
    }
    forall i, n: nat ensures TagText(f, i) == TagText(f, n) <==> i == n {
      TagTextsTell(f, i, n);
    }
    forall n: nat ensures TagText(f, n) != "null" && TagText(f, n) != "true" {
      TagTextsTell(f, n, n);
    }
  }

  lemma {:induction false} ChainGrows(f: string, j: nat, m: nat)
    requires j > 0 && m > 0
    ensures Passes(f, Chain(f, j), TagText(f, j), m) == (Placeholder(f, j + m), Chain(f, j + m))
    decreases m
  {
    hide FirstPass, Placeholder, TextIn;
    ChainTexts(f, j);
    PassNew(f, Chain(f, j), TagText(f, j));
    if m > 1 {
      ChainGrows(f, j + 1, m - 1);
    }
  }

  lemma NullPasses(f: string, k: nat)
    requires k > 0
    ensures Passes(f, [], "null", k) == (Placeholder(f, k), Chain(f, k))
  {
    hide FirstPass, Placeholder, TextIn;
    PassNew(f, [], "null");
    assert [] + ["null"] == ["null"] == Chain(f, 1);
    if k > 1 {
      ChainGrows(f, 1, k - 1);
    }
  }

  /** A value that looks like a placeholder of the chain is led along it to its end. */
  lemma {:induction false} ChainWalked(f: string, k: nat, j: nat)
    requires 0 < j <= k
    ensures Passes(f, Chain(f, k), TagText(f, j), k - j + 1).0 == Placeholder(f, k + 1)
    decreases k - j
  {
    hide FirstPass, Placeholder, TextIn;
    ChainTexts(f, k);
    if j == k {
      PassNew(f, Chain(f, k), TagText(f, k));
    } else {
      ChainAt(f, k, j);
      PassKnown(f, Chain(f, k), j);
      ChainWalked(f, k, j + 1);
    }
  }

  /** A new value is new again in every pass. */
  lemma {:induction false} NewPasses(f: string, seen: seq<string>, x: string, m: nat)
    requires m > 0 && x !in seen
    requires forall n | n > |seen| :: TagText(f, n) !in seen && TagText(f, n) != x
    ensures Passes(f, seen, x, m).0 == Placeholder(f, |seen| + m)
    decreases m
  {
    hide FirstPass, Placeholder, TextIn;
    PassNew(f, seen, x);
    if m > 1 {
      var next := |seen| + 1;
      forall n | n > next ensures TagText(f, n) !in seen + [x] && TagText(f, n) != TagText(f, next) {
        TagTextsTell(f, n, next);
      }
      NewPasses(f, seen + [x], TagText(f, next), m - 1);
    }
  }

  // ------------------------------------------------------- the two frames

  /** Two frames with one field, holding `null` and then something else. */
  function TwoFrames(f: string, v: Json): seq<Frame> {
    [Frame(AToB, One(f, Null)), Frame(AToB, One(f, v))]
  }

  function LineOf(f: string, p: string): Rendering {
    Canonical(FrameJson(AToB, One(f, String(p))), "$")
  }

  /** How two such frames are rendered under a list with the field's name in it. */
  lemma SecondFrame(f: string, l: seq<string>, v: Json, x: string, q: string)
    requires Count(l, f) > 0 && Canonical(v, "$") == Success(x)
    requires Passes(f, Chain(f, Count(l, f)), x, Count(l, f)).0 == q
    ensures LineOf(f, Placeholder(f, Count(l, f))).Success? && LineOf(f, q).Success?
    ensures RenderedText(TwoFrames(f, v), l)
            == Success(Join([LineOf(f, Placeholder(f, Count(l, f))).value, LineOf(f, q).value]))
  {
    hide Canonical, Placeholder, PutOrdinals, TracksField, Join, FirstPass, Passes, Chain, RenderedText;
    var frames, k := TwoFrames(f, v), Count(l, f);
    assert Canonical(Null, "$") == Success("null") by { NullText(); }
    NoneTracked(f);
    ManyPasses(map[], f, Null, "null", [], l);
    NullPasses(f, k);
    var r := PutOrdinals(map[], One(f, Null), l).value;
    ManyPasses(r.0, f, v, x, Chain(f, k), l);
    LineOfOne(f, Placeholder(f, k));
    LineOfOne(f, q);
    TwoLines(frames[0], frames[1], l);
  }

  /** Two frames, one after the other. */
  lemma TwoLines(a: Frame, b: Frame, volatile: seq<string>)
    ensures var r := PutOrdinals(map[], a.envelope, volatile);
            r.Success? && PutOrdinals(r.value.0, b.envelope, volatile).Success? ==>
              var s := PutOrdinals(r.value.0, b.envelope, volatile);
              RenderedText([a, b], volatile)
              == match (Canonical(FrameJson(a.dir, r.value.1), "$"), Canonical(FrameJson(b.dir, s.value.1), "$"))
                 case (Success(l), Success(m)) => Success(Join([l, m]))
                 case (Success(_), Failure(e)) => Failure(e)
                 case (Failure(e), _) => Failure(e)
  {
    hide Canonical, PutOrdinals, Join;
    var r := PutOrdinals(map[], a.envelope, volatile);
    assert [a, b][1..] == [b] && [b][1..] == [];
    if r.Success? && PutOrdinals(r.value.0, b.envelope, volatile).Success? {
      var s := PutOrdinals(r.value.0, b.envelope, volatile).value;
      assert WriteLines(s.0, [], volatile) == Success([]);
      var last := Canonical(FrameJson(b.dir, s.1), "$");
      if last.Success? {
        assert [last.value] + [] == [last.value];
        assert WriteLines(r.value.0, [b], volatile) == Success([last.value]);
        var first := Canonical(FrameJson(a.dir, r.value.1), "$");
        assert first.Success? ==> [first.value] + [last.value] == [first.value, last.value];
      } else {
        assert WriteLines(r.value.0, [b], volatile) == Failure(last.error);
      }
    }
  }

  lemma LastLinesDiffer(f: string, p: string, q: string, q': string)
    ensures var line := (s: string) => Canonical(FrameJson(AToB, One(f, String(s))), "$");
            line(p).Success? && line(q).Success? && line(q').Success?
            && (q != q' ==> Join([line(p).value, line(q).value]) != Join([line(p).value, line(q').value]))
  {
    hide Canonical, Join;
    var line := (s: string) => Canonical(FrameJson(AToB, One(f, String(s))), "$");
    forall s | s == p || s == q || s == q' ensures line(s).Success? && OneLine(line(s).value) && line(s).value != "" {
      LineOfOne(f, s);
    }
    var l, m, m' := line(p).value, line(q).value, line(q').value;
    if Join([l, m]) == Join([l, m']) {
      JoinTells([l, m], [l, m']);
      assert [l, m][1] == [l, m'][1];
      LineTellsOne(f, q, q');
    }
  }

  lemma LineTellsOne(f: string, q: string, q': string)
    requires Canonical(FrameJson(AToB, One(f, String(q))), "$") == Canonical(FrameJson(AToB, One(f, String(q'))), "$")
    ensures q == q'
  {
    hide Canonical, FrameJson, Same;
    LineOfOne(f, q);
    LineOfOne(f, q');
    CanonicalTextDecidesValue(FrameJson(AToB, One(f, String(q))), FrameJson(AToB, One(f, String(q'))), "$");
    FrameSame(AToB, One(f, String(q)), AToB, One(f, String(q')));
    var ms, ns := [Entry(f, String(q))], [Entry(f, String(q'))];
    ObjectsSame(ms, ns);
    assert Stands(ns, ms[0].key, ms[0].item);
    StringsSame(q, q');
  }

  lemma LineOfOne(f: string, s: string)
    ensures var v := FrameJson(AToB, One(f, String(s)));
            WellFormed(v) && IntegersOnly(v) && Canonical(v, "$").Success?
            && OneLine(Canonical(v, "$").value) && Canonical(v, "$").value != ""
  {
    hide Canonical;
    var v := FrameJson(AToB, One(f, String(s)));
    FrameForm(AToB, One(f, String(s)));
    CanonicalIffIntegersOnly(v, "$");
    CanonicalOneLine(v, "$");
    ObjectText(v);
  }

  lemma ObjectText(v: Json)
    requires v.Object? && Canonical(v, "$").Success?
    ensures Canonical(v, "$").value != ""
  {
  }

  /** A frame holding one value without numbers in it. */
  lemma OneIsGood(f: string, v: Json, x: string)
    requires Canonical(v, "$") == Success(x) && WellFormed(v) && IntegersOnly(v)
    ensures WellFormed(One(f, v)) && IntegersOnly(One(f, v)) && TextOf(One(f, v), f) == Some(x)
    ensures forall name | name != f :: TextOf(One(f, v), name) == None
  {
    hide Canonical;
    assert One(f, v).members[0].item == v;
    forall name | name != f ensures TextOf(One(f, v), name) == None {
      NoOther(f, v, name);
    }
  }

  lemma ColumnsOfTwo(f: string, v: Json, x: string)
    requires Canonical(v, "$") == Success(x) && WellFormed(v) && IntegersOnly(v)
    ensures Good(TwoFrames(f, v)) && Column(TwoFrames(f, v), f) == [Some("null"), Some(x)]
    ensures forall name | name != f :: Column(TwoFrames(f, v), name) == [None, None]
  {
    hide Canonical, TextOf, One;
    NullText();
    OneIsGood(f, Null, "null");
    OneIsGood(f, v, x);
    var frames := TwoFrames(f, v);
    forall name ensures Column(frames, name) == [TextOf(frames[0].envelope, name), TextOf(frames[1].envelope, name)] {
    }
  }

  lemma BlankOne(f: string, v: Json, l: seq<string>)
    requires f in l
    ensures Blank(One(f, v), l) == One(f, String(""))
  {
    assert MaskMembers([Entry(f, v)], l, (field: string) => "") == [Entry(f, String(""))];
  }

  lemma SameOne(f: string)
    ensures Same(One(f, String("")), One(f, String("")))
  {
    CanonicalTextDecidesValue(One(f, String("")), One(f, String("")), "$");
  }

  /** Two pairs of frames that match, one of them holding the other's first placeholder. */
  lemma FramesAlike(f: string, l: seq<string>)
    requires f in l
    ensures var xs, ys := TwoFrames(f, String(Placeholder(f, 1))), TwoFrames(f, Bool(true));
            Good(xs) && Good(ys) && Alike(xs, ys, l)
  {
    hide Placeholder, Quote, Good, Column, Canonical, Same;
    var p := Placeholder(f, 1);
    var xs, ys := TwoFrames(f, String(p)), TwoFrames(f, Bool(true));
    NullText();
    StringText(p);
    PlainTextsDiffer(p);
    ColumnsOfTwo(f, String(p), TextIn(p));
    ColumnsOfTwo(f, Bool(true), "true");
    forall i | 0 <= i < 2 ensures SameStable(xs[i], ys[i], l) {
      BlankOne(f, xs[i].envelope.members[0].item, l);
      BlankOne(f, ys[i].envelope.members[0].item, l);
      SameOne(f);
    }
    forall name | name in l ensures Renamed(Column(xs, name), Column(ys, name)) {
      assert name == f || Column(xs, name) == [None, None] == Column(ys, name);
    }
  }

  lemma RenderingsDiffer(f: string, l: seq<string>)
    requires Count(l, f) >= 2
    ensures RenderedText(TwoFrames(f, String(Placeholder(f, 1))), l) != RenderedText(TwoFrames(f, Bool(true)), l)
  {
    hide Canonical, Placeholder, Quote, RenderedText, Join, Passes, Chain, LineOf;
    var k, p := Count(l, f), Placeholder(f, 1);
    NullText();
    StringText(p);
    ChainWalked(f, k, 1);
    SecondFrame(f, l, String(p), TagText(f, 1), Placeholder(f, k + 1));
    ChainTexts(f, k);
    forall n | n > k ensures TagText(f, n) != "true" {
      TagTextsTell(f, n, n);
    }
    NewPasses(f, Chain(f, k), "true", k);
    SecondFrame(f, l, Bool(true), "true", Placeholder(f, 2 * k));
    PlaceholderTells(f, k + 1, 2 * k);
    LinesTell(f, Placeholder(f, k), Placeholder(f, k + 1), Placeholder(f, 2 * k));
  }

  lemma LinesTell(f: string, p: string, q: string, q': string)
    ensures LineOf(f, p).Success? && LineOf(f, q).Success? && LineOf(f, q').Success?
    ensures q != q' ==> Join([LineOf(f, p).value, LineOf(f, q).value]) != Join([LineOf(f, p).value, LineOf(f, q').value])
  {
    hide Canonical, Join;
    LastLinesDiffer(f, p, q, q');
  }

  // --------------------------------------------------------------- exactly

  /** Renderings under this list are equal exactly for transcripts that match up to renaming. */
  ghost predicate Compares(l: seq<string>) {
    forall xs, ys | Good(xs) && Good(ys) :: RenderedText(xs, l) == RenderedText(ys, l) <==> Alike(xs, ys, l)
  }

  /**
   The comparison of transcripts can be trusted exactly for lists that name no field twice: for
   these it is right about every two transcripts, and for any other list there are two that
   match up to renaming and are rendered differently.
   */
  lemma ComparesExactly(l: seq<string>)
    ensures Compares(l) <==> NoRepeats(l)
  {
    hide Good, RenderedText, Alike;
    if NoRepeats(l) {
      forall xs, ys | Good(xs) && Good(ys) ensures RenderedText(xs, l) == RenderedText(ys, l) <==> Alike(xs, ys, l) {
        RenderingsCompare(xs, ys, l);
      }
    } else {
      var i, j :| 0 <= i < j < |l| && l[i] == l[j];
      RepeatedNameMisleads(l, i, j);
    }
  }

  /** The two transcripts, for any list and any name it holds at two places. */
  lemma RepeatedNameMisleads(l: seq<string>, i: nat, j: nat)
    requires i < j < |l| && l[i] == l[j]
    ensures var xs, ys := TwoFrames(l[i], String(Placeholder(l[i], 1))), TwoFrames(l[i], Bool(true));
            Good(xs) && Good(ys) && Alike(xs, ys, l) && RenderedText(xs, l) != RenderedText(ys, l)
  {
    hide Good, RenderedText, Alike;
    CountedTwice(l, l[i], i, j);
    FramesAlike(l[i], l);
    RenderingsDiffer(l[i], l);
  }
}
