/**
 Canonical timestamps (`validate_timestamp` in `src/v2/canon.rs`). Windows and expiries are
 compared as text; the lemmas show that this is comparing instants.
 */
module Timestamps {
  import opened Text

  // ------------------------------------------------------------------ shape

  predicate AsciiDigit(b: byte) {
    48 <= b <= 57
  }

  predicate IsSeparator(i: int) {
    i in {4, 7, 10, 13, 16, 19}
  }

  function Separator(i: int): byte {
    if i == 4 || i == 7 then 45 else if i == 10 then 84 else if i == 19 then 90 else 58
  }

  /** `YYYY-MM-DDTHH:MM:SSZ`, byte for byte. */
  predicate Shape(b: Bytes) {
    |b| == 20 && forall i | 0 <= i < 20 :: if IsSeparator(i) then b[i] == Separator(i) else AsciiDigit(b[i])
  }

  function Two(b: Bytes, i: nat): (n: int)
    requires i + 2 <= |b|
  {
    10 * (b[i] as int - 48) + (b[i + 1] as int - 48)
  }

  datatype Moment = Moment(year: int, month: int, day: int, hour: int, minute: int, second: int)

  function Parts(b: Bytes): Moment
    requires |b| == 20
  {
    Moment(100 * Two(b, 0) + Two(b, 2), Two(b, 5), Two(b, 8), Two(b, 11), Two(b, 14), Two(b, 17))
  }

  predicate Leap(year: int) {
    year % 4 == 0 && (year % 100 != 0 || year % 400 == 0)
  }

  function DaysIn(year: int, month: int): int {
    if month == 2 then if Leap(year) then 29 else 28
    else if month in {4, 6, 9, 11} then 30 else 31
  }

  /** A date and time that exist; the date library lets a minute have a sixty-first second. */
  predicate Exists(m: Moment) {
    && 0 <= m.year <= 9999 && 1 <= m.month <= 12 && 1 <= m.day <= DaysIn(m.year, m.month)
    && 0 <= m.hour <= 23 && 0 <= m.minute <= 59 && 0 <= m.second <= 60
  }

  predicate ValidTimestamp(s: string) {
    var b := Utf8(s);
    Shape(b) && Exists(Parts(b))
  }

  // ------------------------------------------------------------ chronology

  /** Days before the first of a month, counted from the beginning of its year. */
  function DaysBefore(year: int, month: int): int {
    if month <= 1 then 0 else DaysBefore(year, month - 1) + DaysIn(year, month - 1)
  }

  /** Days before a year, counted from the beginning of year 0. */
  function YearStart(year: int): int {
    if year <= 0 then 0 else YearStart(year - 1) + if Leap(year - 1) then 366 else 365
  }

  /** A count that grows with time: days, hours, minutes, and sixty-one places for seconds. */
  function Instant(m: Moment): int {
    (((YearStart(m.year) + DaysBefore(m.year, m.month) + m.day) * 24 + m.hour) * 60 + m.minute) * 61 + m.second
  }

  predicate Before(a: Moment, b: Moment) {
    || a.year < b.year
    || (a.year == b.year
        && (|| a.month < b.month
            || (a.month == b.month
                && (|| a.day < b.day
                    || (a.day == b.day
                        && (|| a.hour < b.hour
                            || (a.hour == b.hour
                                && (a.minute < b.minute || (a.minute == b.minute && a.second < b.second)))))))))
  }

  lemma {:induction false} MonthsGrow(year: int, m: int, n: int)
    requires 1 <= m < n <= 13
    ensures DaysBefore(year, m) + DaysIn(year, m) <= DaysBefore(year, n)
    decreases n - m
  {
    if m + 1 < n {
      MonthsGrow(year, m + 1, n);
    }
  }

  lemma YearLength(year: int)
    ensures DaysBefore(year, 13) == if Leap(year) then 366 else 365
  {
    var february := DaysIn(year, 2);
    assert DaysBefore(year, 2) == 31;
    assert DaysBefore(year, 3) == 31 + february;
    assert DaysBefore(year, 4) == 62 + february;
    assert DaysBefore(year, 5) == 92 + february;
    assert DaysBefore(year, 6) == 123 + february;
    assert DaysBefore(year, 7) == 153 + february;
    assert DaysBefore(year, 8) == 184 + february;
    assert DaysBefore(year, 9) == 215 + february;
    assert DaysBefore(year, 10) == 245 + february;
    assert DaysBefore(year, 11) == 276 + february;
    assert DaysBefore(year, 12) == 306 + february;
  }

  lemma {:induction false} YearsGrow(y: int, z: int)
    requires 0 <= y < z
    ensures YearStart(y) + DaysBefore(y, 13) <= YearStart(z)
    decreases z - y
  {
    YearLength(y);
    if y + 1 < z {
      YearsGrow(y + 1, z);
      YearLength(y + 1);
    }
  }

  function Day(m: Moment): int {
    YearStart(m.year) + DaysBefore(m.year, m.month) + m.day
  }

  lemma {:induction false} DaysNonNegative(year: int, month: int)
    ensures DaysBefore(year, month) >= 0
  {
    if month > 1 {
      DaysNonNegative(year, month - 1);
    }
  }

  lemma EarlierDay(a: Moment, b: Moment)
    requires Exists(a) && Exists(b)
    requires a.year < b.year || (a.year == b.year && (a.month < b.month || (a.month == b.month && a.day < b.day)))
    ensures Day(a) < Day(b)
  {
    if a.year < b.year {
      YearsGrow(a.year, b.year);
      MonthsGrow(a.year, a.month, 13);
      DaysNonNegative(b.year, b.month);
    } else if a.month < b.month {
      MonthsGrow(a.year, a.month, b.month);
    }
  }

  lemma EarlierInstant(a: Moment, b: Moment)
    requires Exists(a) && Exists(b) && Before(a, b)
    ensures Instant(a) < Instant(b)
  {
    hide DaysBefore, YearStart, DaysIn;
    if a.year != b.year || a.month != b.month || a.day != b.day {
      EarlierDay(a, b);
      assert Day(a) + 1 <= Day(b);
    }
  }

  // ---------------------------------------------------------- text order

  lemma {:induction false} FirstDifference(a: Bytes, b: Bytes) returns (k: nat)
    requires |a| == |b| && BytesBefore(a, b)
    ensures k < |a| && a[..k] == b[..k] && a[k] < b[k]
  {
    if a[0] < b[0] {
      k := 0;
    } else {
      var j := FirstDifference(a[1..], b[1..]);
      k := j + 1;
      assert a[..k] == [a[0]] + a[1..][..j] && b[..k] == [b[0]] + b[1..][..j];
    }
  }

  lemma SmallerField(a: Bytes, b: Bytes, k: nat)
    requires Shape(a) && Shape(b) && k < 20 && a[..k] == b[..k] && a[k] < b[k]
    ensures Before(Parts(a), Parts(b))
  {
    assert forall i | 0 <= i < k :: a[i] == a[..k][i] && b[i] == b[..k][i];
    assert forall i | 0 <= i < k :: a[i] == b[i];
    assert !IsSeparator(k);
    assert forall i | 0 <= i < 20 && !IsSeparator(i) :: AsciiDigit(a[i]) && AsciiDigit(b[i]);
    if k < 4 {
      assert AsciiDigit(a[0]) && AsciiDigit(a[1]) && AsciiDigit(a[2]) && AsciiDigit(a[3]);
      assert AsciiDigit(b[0]) && AsciiDigit(b[1]) && AsciiDigit(b[2]) && AsciiDigit(b[3]);
    }
  }

  /** Whether `a` comes before `b` in the byte order of text. */
  predicate TextBefore(a: string, b: string) {
    KeyBefore(a, b)
  }

  /** The instant a timestamp stands for. */
  function InstantOf(s: string): int
    requires ValidTimestamp(s)
  {
    Instant(Parts(Utf8(s)))
  }

  lemma TextBeforeIsEarlier(a: string, b: string)
    requires ValidTimestamp(a) && ValidTimestamp(b) && TextBefore(a, b)
    ensures InstantOf(a) < InstantOf(b)
  {
    hide Instant, Exists;
    var k := FirstDifference(Utf8(a), Utf8(b));
    SmallerField(Utf8(a), Utf8(b), k);
    EarlierInstant(Parts(Utf8(a)), Parts(Utf8(b)));
  }

  /** On valid timestamps the order of the text is the order of the instants. */
  lemma TextOrderIsTimeOrder(a: string, b: string)
    requires ValidTimestamp(a) && ValidTimestamp(b)
    ensures TextBefore(a, b) <==> InstantOf(a) < InstantOf(b)
    ensures a == b <==> InstantOf(a) == InstantOf(b)
  {
    hide InstantOf, TextBefore;
    Trichotomy(a, b);
    if TextBefore(a, b) {
      TextBeforeIsEarlier(a, b);
    } else if TextBefore(b, a) {
      TextBeforeIsEarlier(b, a);
    }
  }

  lemma Trichotomy(a: string, b: string)
    ensures a == b || TextBefore(a, b) || TextBefore(b, a)
  {
    KeyBeforeTotal(a, b);
  }

  /** At or before, in the byte order of text. */
  predicate UpTo(a: string, b: string) {
    a == b || TextBefore(a, b)
  }

  lemma UpToTransitive(a: string, b: string, c: string)
    requires UpTo(a, b) && UpTo(b, c)
    ensures UpTo(a, c)
  {
    if a != b && b != c {
      BytesBeforeTransitive(Utf8(a), Utf8(b), Utf8(c));
    }
  }

  lemma UpToTotal(a: string, b: string)
    ensures UpTo(a, b) || UpTo(b, a)
    ensures UpTo(a, b) && UpTo(b, a) ==> a == b
    ensures UpTo(a, b) <==> !TextBefore(b, a)
  {
    Trichotomy(a, b);
    if TextBefore(a, b) {
      BytesBeforeStrict(Utf8(a), Utf8(b));
    }
    if TextBefore(b, a) {
      BytesBeforeStrict(Utf8(b), Utf8(a));
    }
  }

  function Earlier(a: string, b: string): (r: string)
    ensures r == a || r == b
  {
    if TextBefore(b, a) then b else a
  }

  lemma EarlierIsLowerBound(a: string, b: string)
    ensures UpTo(Earlier(a, b), a) && UpTo(Earlier(a, b), b)
  {
    UpToTotal(a, b);
  }

  /** Any finite collection of texts has a first one. */
  lemma {:induction false} FirstOf(all: set<string>) returns (m: string)
    requires all != {}
    ensures m in all && forall x | x in all :: UpTo(m, x)
  {
    hide UpTo;
    m :| m in all;
    UpToTotal(m, m);
    var rest := all - {m};
    if rest == {} {
      assert forall x | x in all :: x == m || x in rest;
    } else {
      var r := FirstOf(rest);
      UpToTotal(m, r);
      var first := if UpTo(m, r) then m else r;
      forall x | x in all ensures UpTo(first, x) {
        assert x == m || x in rest;
        if x in rest && first == m {
          UpToTransitive(m, r, x);
        }
      }
      m := first;
    }
  }
}
