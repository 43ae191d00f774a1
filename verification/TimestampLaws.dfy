/**
 Which texts are timestamps and which instants they stand for (`validate_timestamp` in
 `src/v2/canon.rs`): exactly the existing moments, each written in one way.
 */
module TimestampLaws {
  import opened Text
  import opened Timestamps

  function Pair(n: int): (s: string)
    requires 0 <= n <= 99
    ensures |s| == 2
  {
    [(n / 10 + 48) as char, (n % 10 + 48) as char]
  }

  /** A moment as it is written: four digits for the year, two for everything else. */
  function Written(m: Moment): (s: string)
    requires Exists(m)
    ensures |s| == 20
  {
    Pair(m.year / 100) + Pair(m.year % 100) + "-" + Pair(m.month) + "-" + Pair(m.day)
    + "T" + Pair(m.hour) + ":" + Pair(m.minute) + ":" + Pair(m.second) + "Z"
  }

  lemma PairParts(n: int)
    requires 0 <= n <= 99
    ensures var s := Pair(n);
            '0' <= s[0] <= '9' && '0' <= s[1] <= '9' && 10 * (s[0] as int - 48) + (s[1] as int - 48) == n
  {
  }

  /** The text at each place. */
  lemma WrittenPlaces(m: Moment)
    requires Exists(m)
    ensures var s := Written(m);
            && s[4] == s[7] == '-' && s[10] == 'T' && s[13] == s[16] == ':' && s[19] == 'Z'
            && s[0..2] == Pair(m.year / 100) && s[2..4] == Pair(m.year % 100) && s[5..7] == Pair(m.month) && s[8..10] == Pair(m.day)
            && s[11..13] == Pair(m.hour) && s[14..16] == Pair(m.minute) && s[17..19] == Pair(m.second)
  {
    hide Pair;
  }

  lemma WrittenDigits(m: Moment)
    requires Exists(m)
    ensures var s := Written(m);
            && (forall i | 0 <= i < 20 :: if IsSeparator(i) then s[i] as int == Separator(i) else '0' <= s[i] <= '9')
            && PairAt(s, 0) == m.year / 100 && PairAt(s, 2) == m.year % 100 && PairAt(s, 5) == m.month && PairAt(s, 8) == m.day
            && PairAt(s, 11) == m.hour && PairAt(s, 14) == m.minute && PairAt(s, 17) == m.second
  {
    hide Pair, Written;
    var s := Written(m);
    WrittenPlaces(m);
    PairIn(s, 0, m.year / 100);
    PairIn(s, 2, m.year % 100);
    PairIn(s, 5, m.month);
    PairIn(s, 8, m.day);
    PairIn(s, 11, m.hour);
    PairIn(s, 14, m.minute);
    PairIn(s, 17, m.second);
  }

  function PairAt(s: string, i: nat): int
    requires i + 2 <= |s|
  {
    10 * (s[i] as int - 48) + (s[i + 1] as int - 48)
  }

  lemma PairIn(s: string, i: nat, n: int)
    requires 0 <= n <= 99 && i + 2 <= |s| && s[i..i + 2] == Pair(n)
    ensures '0' <= s[i] <= '9' && '0' <= s[i + 1] <= '9' && PairAt(s, i) == n
  {
    PairParts(n);
    assert s[i] == s[i..i + 2][0] && s[i + 1] == s[i..i + 2][1];
  }

  /** Every existing moment has a timestamp, which stands for it. */
  lemma WrittenIsValid(m: Moment)
    requires Exists(m)
    ensures ValidTimestamp(Written(m)) && Parts(Utf8(Written(m))) == m
  {
    hide Written, Exists;
    var s := Written(m);
    WrittenDigits(m);
    forall i | 0 <= i < |s| ensures s[i] as int < 0x80 {
    }
    Utf8Ascii(s);
    assert Parts(Utf8(s)) == m;
  }

  /** Every timestamp is one of these: there is one way to write a moment. */
  lemma ValidIsWritten(s: string)
    requires ValidTimestamp(s)
    ensures Exists(Parts(Utf8(s))) && s == Written(Parts(Utf8(s)))
  {
    hide Exists, Written;
    var b := Utf8(s);
    var m := Parts(b);
    WrittenIsValid(m);
    assert forall i | 0 <= i < 20 && !IsSeparator(i) :: AsciiDigit(b[i]) && AsciiDigit(Utf8(Written(m))[i]);
    SameParts(b, Utf8(Written(m)));
    Utf8Injective(s, Written(m));
  }

  lemma SameParts(a: Bytes, b: Bytes)
    requires Shape(a) && Shape(b) && Parts(a) == Parts(b)
    ensures a == b
  {
    assert forall i | 0 <= i < 20 && !IsSeparator(i) :: AsciiDigit(a[i]) && AsciiDigit(b[i]);
    assert AsciiDigit(a[0]) && AsciiDigit(a[1]) && AsciiDigit(a[2]) && AsciiDigit(a[3]);
    assert AsciiDigit(b[0]) && AsciiDigit(b[1]) && AsciiDigit(b[2]) && AsciiDigit(b[3]);
    SamePair(a, b, 0);
    SamePair(a, b, 2);
    SamePair(a, b, 5);
    SamePair(a, b, 8);
    SamePair(a, b, 11);
    SamePair(a, b, 14);
    SamePair(a, b, 17);
    forall i | 0 <= i < 20 ensures a[i] == b[i] {
    }
  }

  lemma SamePair(a: Bytes, b: Bytes, i: nat)
    requires i + 2 <= |a| && i + 2 <= |b| && Two(a, i) == Two(b, i)
    requires AsciiDigit(a[i]) && AsciiDigit(a[i + 1]) && AsciiDigit(b[i]) && AsciiDigit(b[i + 1])
    ensures a[i] == b[i] && a[i + 1] == b[i + 1]
  {
  }

  // -------------------------------------------------------------- calendar

  /** How many of the years before this one are fourths, hundreds and four-hundreds. */
  lemma OneMoreYear(year: int)
    requires year >= 0
    ensures (year + 4) / 4 == (year + 3) / 4 + if year % 4 == 0 then 1 else 0
    ensures (year + 100) / 100 == (year + 99) / 100 + if year % 100 == 0 then 1 else 0
    ensures (year + 400) / 400 == (year + 399) / 400 + if year % 400 == 0 then 1 else 0
    ensures year % 400 == 0 ==> year % 100 == 0
    ensures year % 100 == 0 ==> year % 4 == 0
  {
    assert year == 400 * (year / 400) + year % 400;
    assert year == 100 * (year / 100) + year % 100;
  }

  /** A year begins after 365 days for each year before it and one more for each leap year: every fourth, but of the hundreds every fourth. */
  lemma {:induction false} YearsCounted(year: int)
    requires year >= 0
    ensures YearStart(year) == 365 * year + (year + 3) / 4 - (year + 99) / 100 + (year + 399) / 400
  {
    if year > 0 {
      YearsCounted(year - 1);
      OneMoreYear(year - 1);
    }
  }

  /** The days of the months add up as in the calendar; a leap day comes before the first of March. */
  lemma MonthsCounted(year: int, month: int)
    requires 1 <= month <= 12
    ensures DaysBefore(year, month)
            == [0, 31, 59, 90, 120, 151, 181, 212, 243, 273, 304, 334][month - 1]
               + if month > 2 && year % 4 == 0 && (year % 100 == 0 ==> year % 400 == 0) then 1 else 0
  {
    var february := DaysIn(year, 2);
    assert DaysBefore(year, 1) == 0;
    assert DaysBefore(year, 2) == 31;
    assert DaysBefore(year, 3) == 31 + february;
    assert DaysBefore(year, 4) == 62 + february;
    assert DaysBefore(year, 5) == 92 + february;
    assert DaysBefore(year, 6) == 123 + february;
    assert DaysBefore(year, 7) == 153 + february;
    assert DaysBefore(year, 8) == 184 + february;
    assert DaysBefore(year, 9) == 215 + february;
    assert DaysBefore(year, 10) == 245 + february;
    assert DaysBefore(year, 11) == 276 + february;
    assert DaysBefore(year, 12) == 306 + february;
  }

  /** A day that exists is there with every time of the day, up to a sixty-first second in any minute. */
  lemma EveryTimeOfDay(m: Moment, hour: int, minute: int, second: int)
    requires Exists(m)
    ensures Exists(m.(hour := hour, minute := minute, second := second)) <==> 0 <= hour < 24 && 0 <= minute < 60 && 0 <= second < 61
  {
  }

  /** A day exists exactly when it comes before the first of the next month, which for December is the next year's. */
  lemma DayExists(m: Moment)
    requires 0 <= m.hour < 24 && 0 <= m.minute < 60 && 0 <= m.second < 61
    ensures Exists(m)
            <==> 0 <= m.year < 10000 && 1 <= m.month <= 12 && 1 <= m.day
                 && YearStart(m.year) + DaysBefore(m.year, m.month) + m.day
                    <= if m.month < 12 then YearStart(m.year) + DaysBefore(m.year, m.month + 1) else YearStart(m.year + 1)
  {
    hide YearStart, DaysBefore, DaysIn;
    if 0 <= m.year && 1 <= m.month <= 12 {
      NextMonth(m.year, m.month);
    }
  }

  lemma NextMonth(year: int, month: int)
    requires 0 <= year && 1 <= month <= 12
    ensures DaysBefore(year, month) + DaysIn(year, month) == if month < 12 then DaysBefore(year, month + 1) else YearStart(year + 1) - YearStart(year)
  {
    if month == 12 {
      YearLength(year);
    }
  }
}
