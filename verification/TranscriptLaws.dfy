/**
 What a rendered transcript says (`tests/common/mod.rs`): each line reads as its frame, with
 the values of the volatile fields replaced by their numbers in order of first occurrence.
 */
module TranscriptLaws {
  import opened Collections
  import opened Wrappers
  import opened Text
  import opened Canon
  import opened JsonReader
  import opened Transcripts

  // --------------------------------------------------------------- numbering

  /** The distinct texts at the first places. */
  function TextsBefore(xs: seq<Option<string>>, i: nat): set<string>
    requires i <= |xs|
  {
    set k | 0 <= k < i && xs[k].Some? :: xs[k].value
  }

  lemma {:induction false} DistinctCount(xs: seq<string>)
    requires NoRepeats(xs)
    ensures |set x | x in xs| == |xs|
  {
    if xs != [] {
      var n := |xs| - 1;
      var front := set x | x in xs[..n];
      DistinctCount(xs[..n]);
      assert (set x | x in xs) == front + {xs[n]};
      assert xs[n] !in front;
    }
  }

  /** A new text gets one more than the number of texts that came before it, a known one its number again. */
  lemma NumberedByFirst(xs: seq<Option<string>>, i: nat)
    requires i < |xs| && xs[i].Some?
    ensures xs[i].value !in TextsBefore(xs, i) ==> OrdinalAt(xs, i) == 1 + |TextsBefore(xs, i)|
    ensures forall j | 0 <= j < i && xs[j] == xs[i] :: OrdinalAt(xs, i) == OrdinalAt(xs, j)
  {
    var before := Seen(xs[..i]);
    SeenDistinct(xs[..i]);
    DistinctCount(before);
    IndexInIs(before, xs[i].value);
    forall x ensures x in before <==> x in TextsBefore(xs, i) {
      if x in before {
        var k :| 0 <= k < |xs[..i]| && xs[..i][k] == Some(x);
        assert xs[k] == Some(x);
      }
      if k :| 0 <= k < i && xs[k].Some? && xs[k].value == x {
        assert xs[..i][k] == Some(x);
      }
    }
    assert (set x | x in before) == TextsBefore(xs, i);
    forall j | 0 <= j < i && xs[j] == xs[i] ensures OrdinalAt(xs, i) == OrdinalAt(xs, j) {
      OrdinalTells(xs, i, j);
    }
  }

  // ------------------------------------------------------------------- lines

  /** The members of an envelope as they are shown: volatile ones by number, the others as they are. */
  ghost predicate ShowsMembers(ms: seq<Entry<Json>>, shown: seq<Entry<Json>>, volatile: seq<string>, number: string -> nat) {
    |shown| == |ms|
    && forall k | 0 <= k < |ms| ::
         if ms[k].key in volatile then Entry(ms[k].key, String("<<" + ms[k].key + "#" + Decimal(number(ms[k].key)) + ">>")) in shown
         else Stands(shown, ms[k].key, ms[k].item)
  }

  lemma FieldText(frames: seq<Frame>, i: nat, field: string)
    requires i < |frames| && IntegersOnly(frames[i].envelope) && HasKey(frames[i].envelope, field)
    ensures Column(frames, field)[i].Some?
    ensures TagAt(frames, i, field) == "<<" + field + "#" + Decimal(OrdinalAt(Column(frames, field), i)) + ">>"
  {
    hide OrdinalAt;
    TextWhenPresent(frames[i].envelope, field);
  }

  /** The number of a field's value in frame `i`, by its canonical text over all frames. */
  function NumberAt(frames: seq<Frame>, i: nat, field: string): nat
    requires i < |frames|
  {
    if Column(frames, field)[i].Some? then OrdinalAt(Column(frames, field), i) else 0
  }

  /**
   The line of a frame reads as an object of two members: its direction, and its envelope with
   every volatile field shown by its number and every other one as it is.
   */
  lemma LineReads(frames: seq<Frame>, volatile: seq<string>, i: nat) returns (w: Json, envelope: Json)
    requires i < |frames| && WellFormed(frames[i].envelope) && IntegersOnly(frames[i].envelope)
    ensures ReadValue(LineText(frames, volatile, i)) == Some((w, ""))
    ensures w.Object? && |w.members| == 2 && Entry("envelope", envelope) in w.members
    ensures Entry("dir", String(if frames[i].dir.AToB? then "a>b" else "b>a")) in w.members
    ensures if frames[i].envelope.Object? then
              envelope.Object? && ShowsMembers(frames[i].envelope.members, envelope.members, volatile, (field: string) => NumberAt(frames, i, field))
            else Same(frames[i].envelope, envelope)
  {
    hide Canonical, ReadValue, Same, WellFormed, IntegersOnly, OneLine, Arranged, ShowsMembers;
    var masked := Masked(frames, volatile, i);
    LineGood(frames, volatile, i);
    FrameForm(frames[i].dir, masked);
    w := CanonicalReadsBack(FrameJson(frames[i].dir, masked), "$");
    envelope := FrameMembers(frames[i].dir, masked, w);
    if frames[i].envelope.Object? {
      EnvelopeShown(frames, volatile, i, envelope);
    }
  }

  lemma FrameMembers(dir: Direction, e: Json, w: Json) returns (shown: Json)
    requires Same(FrameJson(dir, e), w)
    ensures w.Object? && |w.members| == 2 && Entry("envelope", shown) in w.members && Same(e, shown)
    ensures Entry("dir", String(if dir.AToB? then "a>b" else "b>a")) in w.members
  {
    hide Stands;
    var ms := FrameJson(dir, e).members;
    assert w.Object? by {
      assert FrameJson(dir, e).Object?;
    }
    ObjectsSame(ms, w.members);
    assert ms[0] == Entry("dir", String(DirName(dir))) && ms[1] == Entry("envelope", e);
    MemberOf(w.members, "dir", String(DirName(dir)));
    var d := StandIn(w.members, "dir", String(DirName(dir)));
    assert d == String(DirName(dir));
    shown := StandIn(w.members, "envelope", e);
  }

  lemma MemberOf(ns: seq<Entry<Json>>, key: string, item: Json)
    requires Stands(ns, key, item) && item.String?
    ensures Entry(key, item) in ns
  {
    var j :| StandsAt(ns, j, key, item);
    assert ns[j] == Entry(key, item);
  }

  lemma StandIn(ns: seq<Entry<Json>>, key: string, item: Json) returns (shown: Json)
    requires Stands(ns, key, item)
    ensures Entry(key, shown) in ns && Same(item, shown)
  {
    hide Same;
    var j :| StandsAt(ns, j, key, item);
    shown := ns[j].item;
    assert ns[j] == Entry(key, shown);
  }

  lemma EnvelopeShown(frames: seq<Frame>, volatile: seq<string>, i: nat, shown: Json)
    requires i < |frames| && IntegersOnly(frames[i].envelope) && frames[i].envelope.Object?
    requires Same(Masked(frames, volatile, i), shown)
    ensures shown.Object?
            && ShowsMembers(frames[i].envelope.members, shown.members, volatile, (field: string) => NumberAt(frames, i, field))
  {
    hide Stands, TagAt, NumberAt;
    var e := frames[i].envelope;
    var masked := Masked(frames, volatile, i);
    ObjectsSame(masked.members, shown.members);
    forall k | 0 <= k < |e.members|
      ensures if e.members[k].key in volatile
              then Entry(e.members[k].key, String("<<" + e.members[k].key + "#" + Decimal(NumberAt(frames, i, e.members[k].key)) + ">>")) in shown.members
              else Stands(shown.members, e.members[k].key, e.members[k].item)
    {
      var key := e.members[k].key;
      assert Stands(shown.members, masked.members[k].key, masked.members[k].item);
      if key in volatile {
        FieldTag(frames, i, k);
        MemberOf(shown.members, key, String(TagAt(frames, i, key)));
      }
    }
  }

  lemma FieldTag(frames: seq<Frame>, i: nat, k: nat)
    requires i < |frames| && IntegersOnly(frames[i].envelope) && frames[i].envelope.Object? && k < |frames[i].envelope.members|
    ensures var key := frames[i].envelope.members[k].key;
            TagAt(frames, i, key) == "<<" + key + "#" + Decimal(NumberAt(frames, i, key)) + ">>"
  {
    hide TagAt, OrdinalAt;
    FieldText(frames, i, frames[i].envelope.members[k].key);
  }
}
