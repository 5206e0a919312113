/** Full-dates (section 5.6 of RFC 3339), the form of a user's reply dates. */
module Dates {
  import opened Common
  import opened Json

  datatype Date = Date(year: nat, month: nat, day: nat) {
    predicate Valid() { year <= 9999 && 1 <= month <= 12 && 1 <= day <= DaysIn(month, year) }
  }

  predicate LeapYear(year: nat) { year % 4 == 0 && (year % 100 != 0 || year % 400 == 0) }

  function DaysIn(month: nat, year: nat): nat
  {
    if month == 2 then (if LeapYear(year) then 29 else 28)
    else if month == 4 || month == 6 || month == 9 || month == 11 then 30
    else 31
  }

  function TwoDigits(n: nat): string
    requires n < 100
  {
    [Digit(n / 10), Digit(n % 10)]
  }

  /** The text Go's layout "2006-01-02" gives a date. */
  function Format(d: Date): (text: string)
    requires d.Valid()
    ensures |text| == 10
  {
    TwoDigits(d.year / 100) + TwoDigits(d.year % 100) + "-" + TwoDigits(d.month) + "-" + TwoDigits(d.day)
  }

  function DigitsAt(s: string, at: nat): Option<nat>
    requires at + 2 <= |s|
  {
    if AllDigits(s[at..at + 2])
    then Some((s[at] as int - '0' as int) * 10 + (s[at + 1] as int - '0' as int))
    else None
  }

  /** Parsing by that layout: fixed widths, nothing before or after, and the day must exist. */
  function Parse(text: string): (r: Option<Date>)
    ensures r.Some? ==> r.value.Valid()
  {
    if |text| != 10 || text[4] != '-' || text[7] != '-' then None
    else
      var century :- DigitsAt(text, 0);
      var year :- DigitsAt(text, 2);
      var month :- DigitsAt(text, 5);
      var day :- DigitsAt(text, 8);
      var d := Date(century * 100 + year, month, day);
      if d.Valid() then Some(d) else None
  }

  lemma DigitsAtFormat(s: string, at: nat, n: nat)
    requires at + 2 <= |s| && n < 100
    ensures s[at..at + 2] == TwoDigits(n) <==> DigitsAt(s, at) == Some(n)
  {
    var t := s[at..at + 2];
    assert t[0] == s[at] && t[1] == s[at + 1];
    assert t == [s[at], s[at + 1]];
  }

  lemma FormatParts(d: Date)
    requires d.Valid()
    ensures var s := Format(d);
            s[0..2] == TwoDigits(d.year / 100) && s[2..4] == TwoDigits(d.year % 100) && s[4] == '-'
            && s[5..7] == TwoDigits(d.month) && s[7] == '-' && s[8..10] == TwoDigits(d.day)
  {
  }

  /** A date written and read back is the same date. */
  lemma ParseFormat(d: Date)
    requires d.Valid()
    ensures Parse(Format(d)) == Some(d)
  {
    var s := Format(d);
    FormatParts(d);
    DigitsAtFormat(s, 0, d.year / 100);
    DigitsAtFormat(s, 2, d.year % 100);
    DigitsAtFormat(s, 5, d.month);
    DigitsAtFormat(s, 8, d.day);
  }

  /** A text that parses is the text its date is written as. */
  lemma FormatParse(text: string)
    requires Parse(text).Some?
    ensures Format(Parse(text).value) == text
  {
    var d := Parse(text).value;
    var century, year := DigitsAt(text, 0).value, DigitsAt(text, 2).value;
    assert d.year / 100 == century && d.year % 100 == year;
    DigitsAtFormat(text, 0, century);
    DigitsAtFormat(text, 2, year);
    DigitsAtFormat(text, 5, d.month);
    DigitsAtFormat(text, 8, d.day);
    assert text == text[0..2] + text[2..4] + [text[4]] + text[5..7] + [text[7]] + text[8..10];
  }

  // ---------- which texts are dates ----------

  function Numeral(c: char): int { c as int - '0' as int }

  /** The days of the Gregorian calendar. */
  predicate CalendarDay(year: int, month: int, day: int)
  {
    && day >= 1
    && (|| (month in {1, 3, 5, 7, 8, 10, 12} && day <= 31)
        || (month in {4, 6, 9, 11} && day <= 30)
        || (month == 2 && day <= 28)
        || (month == 2 && day == 29 && (year % 400 == 0 || (year % 4 == 0 && year % 100 != 0))))
  }

  /** Four, two and two digits that name such a day. */
  predicate FullDate(text: string)
  {
    && |text| == 10 && text[4] == '-' && text[7] == '-'
    && AllDigits([text[0], text[1]]) && AllDigits([text[2], text[3]])
    && AllDigits([text[5], text[6]]) && AllDigits([text[8], text[9]])
    && CalendarDay(1000 * Numeral(text[0]) + 100 * Numeral(text[1]) + 10 * Numeral(text[2]) + Numeral(text[3]),
                   10 * Numeral(text[5]) + Numeral(text[6]), 10 * Numeral(text[8]) + Numeral(text[9]))
  }

  lemma DigitsAtExactly(s: string, at: nat)
    requires at + 2 <= |s|
    ensures DigitsAt(s, at).Some? <==> AllDigits([s[at], s[at + 1]])
    ensures DigitsAt(s, at).Some? ==> DigitsAt(s, at).value == 10 * Numeral(s[at]) + Numeral(s[at + 1])
  {
    assert s[at..at + 2] == [s[at], s[at + 1]];
    assert AllDigits([s[at], s[at + 1]]) ==> '0' <= [s[at], s[at + 1]][0] <= '9' && '0' <= [s[at], s[at + 1]][1] <= '9';
  }

  lemma ValidExactly(d: Date)
    ensures d.Valid() <==> d.year <= 9999 && CalendarDay(d.year, d.month, d.day)
  {
  }

  lemma DigitsSmall(s: string, at: nat)
    requires at + 2 <= |s| && AllDigits([s[at], s[at + 1]])
    ensures 0 <= Numeral(s[at]) <= 9 && 0 <= Numeral(s[at + 1]) <= 9
  {
    assert '0' <= [s[at], s[at + 1]][0] <= '9' && '0' <= [s[at], s[at + 1]][1] <= '9';
  }

  /** Exactly the texts that parse. */
  lemma ParsesExactly(text: string)
    ensures Parse(text).Some? <==> FullDate(text)
  {
    hide CalendarDay, AllDigits, Numeral, DigitsAt, Date.Valid;
    if |text| == 10 {
      DigitsAtExactly(text, 0);
      DigitsAtExactly(text, 2);
      DigitsAtExactly(text, 5);
      DigitsAtExactly(text, 8);
      if AllDigits([text[0], text[1]]) && AllDigits([text[2], text[3]]) && AllDigits([text[5], text[6]])
         && AllDigits([text[8], text[9]]) {
        DigitsSmall(text, 0);
        DigitsSmall(text, 2);
        DigitsSmall(text, 5);
        DigitsSmall(text, 8);
        ValidExactly(Date(100 * DigitsAt(text, 0).value + DigitsAt(text, 2).value,
                          DigitsAt(text, 5).value, DigitsAt(text, 8).value));
      }
    }
  }

  // ---------- the calendar ----------

  /** The days before 1 March of a year. */
  function YearNumber(year: int): int { 365 * year + year / 4 - year / 100 + year / 400 }

  /** The days between 1 March and the first of a month, counted from March. */
  function MonthNumber(month: int): int { (153 * month + 2) / 5 }

  /** The number of a day, by the closed formula for years that begin in March. */
  function DayNumber(d: Date): int
  {
    var year: int := if d.month <= 2 then d.year - 1 else d.year;
    var month: int := if d.month <= 2 then d.month + 9 else d.month - 3;
    YearNumber(year) + MonthNumber(month) + d.day
  }

  predicate Before(a: Date, b: Date)
  {
    || a.year < b.year
    || (a.year == b.year && (a.month < b.month || (a.month == b.month && a.day < b.day)))
  }

  lemma LeapStep(year: int)
    ensures YearNumber(year) - YearNumber(year - 1) ==
            if year % 400 == 0 || (year % 4 == 0 && year % 100 != 0) then 366 else 365
  {
    FloorStep(year, 4);
    FloorStep(year, 100);
    FloorStep(year, 400);
    if year % 400 == 0 {
      Hundreds(year);
    }
    if year % 100 == 0 {
      Fours(year);
    }
  }

  lemma FloorStep(year: int, n: int)
    requires n in {4, 100, 400}
    ensures year / n - (year - 1) / n == if year % n == 0 then 1 else 0
  {
  }

  lemma Hundreds(year: int)
    requires year % 400 == 0
    ensures year % 100 == 0
  {
    assert year == 100 * (4 * (year / 400));
  }

  lemma Fours(year: int)
    requires year % 100 == 0
    ensures year % 4 == 0
  {
    assert year == 4 * (25 * (year / 100));
  }

  lemma MonthStarts()
    ensures MonthNumber(0) == 0 && MonthNumber(1) == 31 && MonthNumber(2) == 61 && MonthNumber(3) == 92
    ensures MonthNumber(4) == 122 && MonthNumber(5) == 153 && MonthNumber(6) == 184 && MonthNumber(7) == 214
    ensures MonthNumber(8) == 245 && MonthNumber(9) == 275 && MonthNumber(10) == 306 && MonthNumber(11) == 337
  {
  }

  /** The last day of a month and the first of the next. */
  lemma MonthEnds(year: nat, month: nat)
    requires 1 <= month <= 12
    ensures DayNumber(Date(year, month, DaysIn(month, year))) + 1 ==
            DayNumber(if month == 12 then Date(year + 1, 1, 1) else Date(year, month + 1, 1))
  {
    MonthStarts();
    hide YearNumber, MonthNumber;
    if month == 2 {
      LeapStep(year);
    }
  }

  lemma {:induction false} MonthsOrdered(year: nat, month: nat, later: nat)
    requires 1 <= month < later <= 13
    ensures DayNumber(Date(year, month, DaysIn(month, year))) <
            DayNumber(if later == 13 then Date(year + 1, 1, 1) else Date(year, later, 1))
    decreases later
  {
    hide DayNumber, DaysIn;
    if later > month + 1 {
      MonthsOrdered(year, month, later - 1);
      MonthEnds(year, later - 1);
      DaysCounted(year, later - 1);
    } else {
      MonthEnds(year, month);
    }
  }

  lemma DaysCounted(year: nat, month: nat)
    ensures forall day: nat :: DayNumber(Date(year, month, day)) == DayNumber(Date(year, month, 1)) + day - 1
    ensures DaysIn(month, year) >= 28
  {
    hide YearNumber, MonthNumber;
  }

  lemma {:induction false} YearsOrdered(year: nat, later: nat)
    requires year <= later
    ensures DayNumber(Date(year, 1, 1)) <= DayNumber(Date(later, 1, 1))
    decreases later
  {
    hide DayNumber;
    if year < later {
      YearsOrdered(year, later - 1);
      MonthsOrdered(later - 1, 1, 13);
      DaysCounted(later - 1, 1);
    }
  }

  lemma NumbersOrdered(a: Date, b: Date)
    requires a.Valid() && b.Valid() && Before(a, b)
    ensures DayNumber(a) < DayNumber(b)
  {
    hide DayNumber, DaysIn;
    DaysCounted(a.year, a.month);
    DaysCounted(b.year, b.month);
    if a.year == b.year {
      if a.month < b.month {
        MonthsOrdered(a.year, a.month, b.month);
      }
    } else {
      MonthsOrdered(a.year, a.month, 13);
      YearsOrdered(a.year + 1, b.year);
      DaysCounted(b.year, 1);
      if b.month > 1 {
        MonthsOrdered(b.year, 1, b.month);
      }
    }
  }

  /** The dates that exist are those of the Gregorian calendar: in order they have consecutive numbers, so none is
      missing and none is too many. */
  lemma Calendar(a: Date, b: Date)
    requires a.Valid() && b.Valid()
    ensures Before(a, b) <==> DayNumber(a) < DayNumber(b)
    ensures a != Date(9999, 12, 31) ==> exists next: Date :: next.Valid() && DayNumber(next) == DayNumber(a) + 1
  {
    hide DayNumber;
    if Before(a, b) {
      NumbersOrdered(a, b);
    } else if a != b {
      NumbersOrdered(b, a);
    }
    var next := if a.day < DaysIn(a.month, a.year) then Date(a.year, a.month, a.day + 1)
                else if a.month < 12 then Date(a.year, a.month + 1, 1)
                else Date(a.year + 1, 1, 1);
    MonthEnds(a.year, a.month);
    DaysCounted(a.year, a.month);
    if a != Date(9999, 12, 31) {
      assert next.Valid() && DayNumber(next) == DayNumber(a) + 1;
    }
  }
}
