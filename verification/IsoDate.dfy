/** ISO date keys (`YYYY-MM-DD`): parsing, printing, normalising, and the Monday-first weekday. */
module IsoDate {
  import opened Calendar
  import opened Decimal

  datatype Normalized = Ok(key: string) | InvalidIsoDate

  /** `s.split(sep)` for a one-character separator. */
  function Split(s: string, sep: char): (p: seq<string>)
    ensures p != []
  {
    if s == [] then [""]
    else
      var rest := Split(s[1..], sep);
      if s[0] == sep then [""] + rest else [[s[0]] + rest[0]] + rest[1..]
  }

  /** A text whose first three dash-separated parts, or fewer, are decimal numbers or empty, so that none reads as NaN. */
  predicate IsDateKey(s: string) {
    var p := Split(s, '-');
    forall i :: 0 <= i < |p| && i < 3 ==> AllDigits(p[i])
  }

  /** `date.split('-').map(Number)`: the empty part is 0, a missing month or day is 1, further parts are ignored. */
  function ParseKey(s: string): CivilDate
    requires IsDateKey(s)
  {
    var p := Split(s, '-');
    CivilDate(Parse(p[0]), if |p| > 1 then Parse(p[1]) else 1, if |p| > 2 then Parse(p[2]) else 1)
  }

  function PrintYear(y: int): string {
    if y < 0 then "-" + Print(-y) else Print(y)
  }

  function FormatKey(c: CivilDate): string
    requires 0 <= c.month && 0 <= c.day
  {
    PrintYear(c.year) + "-" + PadZeros(Print(c.month), 2) + "-" + PadZeros(Print(c.day), 2)
  }

  /** isoDateToUtcDate: the UTC midnight the key names, in milliseconds. */
  function IsoDateToUtc(s: string): int
    requires IsDateKey(s)
  {
    var c := ParseKey(s);
    DateUtc(c.year, c.month - 1, c.day, 0)
  }

  /** getIsoDateFromUtcDate. */
  function IsoDateFromUtc(ms: int): string {
    FormatKey(CivilFromDay(ms / MS_PER_DAY))
  }

  /** The pattern of normalizeIsoDateKey: four, two and two digits between dashes. */
  predicate HasIsoShape(s: string) {
    |s| == 10 && s[4] == '-' && s[7] == '-' && AllDigits(s[..4]) && AllDigits(s[5..7]) && AllDigits(s[8..])
  }

  function NormalizeIsoDateKey(s: string): Normalized {
    if !HasIsoShape(s) then InvalidIsoDate
    else
      var normalized := s[..4] + "-" + s[5..7] + "-" + s[8..];
      SplitThree(s[..4], s[5..7], s[8..]);
      if IsoDateFromUtc(IsoDateToUtc(normalized)) != normalized then InvalidIsoDate else Ok(normalized)
  }

  /** toSchemaDayOfWeekFromIsoDate: Monday is 0. */
  function SchemaDayOfWeek(s: string): int
    requires IsDateKey(s)
  {
    var jsDay := WeekDay(IsoDateToUtc(s) / MS_PER_DAY);
    if jsDay == 0 then 6 else jsDay - 1
  }

  /** The key of the following day, as getUtcRangeForZonedDate computes it. */
  function NextKey(s: string): string
    requires IsDateKey(s)
  {
    var c := ParseKey(s);
    IsoDateFromUtc(DateUtc(c.year, c.month - 1, c.day + 1, 0))
  }

  /** The keys the normaliser is meant to accept: a real Gregorian day in a year of four digits. */
  predicate NamesRealDay(s: string) {
    HasIsoShape(s) && IsDateKey(s) && ParseKey(s).year >= 1000 && IsCivil(ParseKey(s))
  }

  lemma {:induction false} SplitNoSeparator(a: string, sep: char)
    requires sep !in a
    ensures Split(a, sep) == [a]
  {
    if a != [] {
      SplitNoSeparator(a[1..], sep);
      assert a == [a[0]] + a[1..];
    }
  }

  lemma {:induction false} SplitFirst(a: string, rest: string, sep: char)
    requires sep !in a
    ensures Split(a + [sep] + rest, sep) == [a] + Split(rest, sep)
  {
    var s := a + [sep] + rest;
    if a == [] {
      assert s[1..] == rest;
    } else {
      SplitFirst(a[1..], rest, sep);
      assert s[1..] == a[1..] + [sep] + rest;
      assert a == [a[0]] + a[1..];
    }
  }

  lemma SplitThree(a: string, b: string, c: string)
    requires AllDigits(a) && AllDigits(b) && AllDigits(c) && a != [] && b != [] && c != []
    ensures Split(a + "-" + b + "-" + c, '-') == [a, b, c]
    ensures IsDateKey(a + "-" + b + "-" + c)
    ensures ParseKey(a + "-" + b + "-" + c) == CivilDate(Parse(a), Parse(b), Parse(c))
  {
    SplitFirst(a, b + "-" + c, '-');
    SplitFirst(b, c, '-');
    SplitNoSeparator(c, '-');
    assert a + "-" + b + "-" + c == a + ['-'] + (b + "-" + c);
    assert b + "-" + c == b + ['-'] + c;
    assert Split(a + "-" + b + "-" + c, '-') == [a] + ([b] + [c]);
  }

  /** Printing a civil date and reading it back gives the same triple. */
  lemma ParseFormatKey(c: CivilDate)
    requires c.year >= 0 && 0 <= c.month < 100 && 0 <= c.day < 100
    ensures IsDateKey(FormatKey(c)) && ParseKey(FormatKey(c)) == c
  {
    ParsePrint(c.year);
    PrintOneOrTwo(c.month);
    PrintOneOrTwo(c.day);
    SplitThree(Print(c.year), PadZeros(Print(c.month), 2), PadZeros(Print(c.day), 2));
  }

  lemma ShapeParts(s: string)
    requires HasIsoShape(s)
    ensures s == s[..4] + "-" + s[5..7] + "-" + s[8..]
    ensures IsDateKey(s)
    ensures ParseKey(s) == CivilDate(Parse(s[..4]), Parse(s[5..7]), Parse(s[8..]))
    ensures 0 <= ParseKey(s).year && 0 <= ParseKey(s).month < 100 && 0 <= ParseKey(s).day < 100
  {
    assert s == s[..4] + "-" + s[5..7] + "-" + s[8..];
    SplitThree(s[..4], s[5..7], s[8..]);
    TwoDigits(s[5..7]);
    TwoDigits(s[8..]);
  }

  /** A shaped key is the print of its own triple exactly when the year needs all four digits. */
  lemma FormatParseKey(s: string)
    requires HasIsoShape(s)
    ensures IsDateKey(s)
    ensures ParseKey(s).month >= 0 && ParseKey(s).day >= 0
    ensures FormatKey(ParseKey(s)) == s <==> ParseKey(s).year >= 1000
  {
    ShapeParts(s);
    TwoDigits(s[5..7]);
    TwoDigits(s[8..]);
    var y := Parse(s[..4]);
    PrintLengthFour(y);
    var tail := "-" + PadZeros(Print(ParseKey(s).month), 2) + "-" + PadZeros(Print(ParseKey(s).day), 2);
    assert FormatKey(ParseKey(s)) == Print(y) + tail;
    assert s == s[..4] + tail;
    if s[0] != '0' {
      PrintParse(s[..4]);
    } else {
      assert Print(y) != s[..4] by {
        if Print(y) == s[..4] {
          PrintNoLeadingZero(y);
        }
      }
      assert (Print(y) + tail)[..|Print(y)|] == Print(y);
      if y >= 1000 {
        LeadingZeroIsSmall(s[..4]);
      }
    }
  }

  lemma {:induction false} PrintNoLeadingZero(n: nat)
    ensures |Print(n)| > 1 ==> Print(n)[0] != '0'
  {
    if n >= 10 {
      PrintNoLeadingZero(n / 10);
    }
  }

  lemma LeadingZeroIsSmall(s: string)
    requires |s| == 4 && AllDigits(s) && s[0] == '0'
    ensures Parse(s) < 1000
  {
    assert s[..3][..2] == s[..2] && s[..2][..1] == s[..1] && s[..1][..0] == [];
    assert Parse(s[..1]) == 0;
    assert Parse(s[..2]) < 10;
    assert Parse(s[..3]) < 100;
  }

  /** The key printed from the midnight that a triple names. */
  lemma KeyOfTriple(c: CivilDate)
    requires c.year >= 0
    ensures IsoDateFromUtc(DateUtc(c.year, c.month - 1, c.day, 0))
         == FormatKey(CivilFromDay(DayFromCivil(c.(year := MakeFullYear(c.year)))))
  {
    hide CivilFromDay, FormatKey;
    MidnightDay(c.year, c.month - 1, c.day);
  }

  lemma FormattedYearIsPositive(c: CivilDate, s: string)
    requires HasIsoShape(s) && IsCivil(c) && FormatKey(c) == s
    ensures c.year >= 0 && IsDateKey(s) && ParseKey(s) == c
  {
    assert IsDigit(s[..4][0]);
    assert PrintYear(c.year) == s[..|PrintYear(c.year)|];
    ParseFormatKey(c);
  }

  /** normalizeIsoDateKey accepts exactly the real Gregorian days from year 1000, and returns them unchanged. */
  lemma NormalizeAcceptsRealDays(s: string)
    ensures NormalizeIsoDateKey(s) == if NamesRealDay(s) then Ok(s) else InvalidIsoDate
  {
    if HasIsoShape(s) {
      ShapeParts(s);
      FormatParseKey(s);
      KeyOfTriple(ParseKey(s));
      TripleSurvives(s);
    }
  }

  lemma TripleSurvives(s: string)
    requires HasIsoShape(s) && IsDateKey(s)
    ensures var c := ParseKey(s);
      FormatKey(CivilFromDay(DayFromCivil(c.(year := MakeFullYear(c.year))))) == s
      <==> c.year >= 1000 && IsCivil(c)
  {
    ShapeParts(s);
    FormatParseKey(s);
    var c := ParseKey(s);
    var r := CivilFromDay(DayFromCivil(c.(year := MakeFullYear(c.year))));
    if c.year >= 1000 && IsCivil(c) {
      CivilOfDayOfCivil(c);
    }
    if FormatKey(r) == s {
      FormattedYearIsPositive(r, s);
    }
  }

  /** ISO to UTC to ISO is the identity on every accepted key. */
  lemma IsoUtcRoundTrip(s: string)
    requires NamesRealDay(s)
    ensures IsoDateFromUtc(IsoDateToUtc(s)) == s
    ensures IsoDateToUtc(s) == DayFromCivil(ParseKey(s)) * MS_PER_DAY
  {
    hide IsCivil, CivilFromDay, FormatKey, ParseKey, IsDateKey;
    KeyOfTriple(ParseKey(s));
    TripleSurvives(s);
  }

  lemma FormatHasShape(c: CivilDate)
    requires 1000 <= c.year <= 9999 && 0 <= c.month < 100 && 0 <= c.day < 100
    ensures HasIsoShape(FormatKey(c))
  {
    PrintLengthFour(c.year);
    ParsePrint(c.year);
    PrintOneOrTwo(c.month);
    PrintOneOrTwo(c.day);
    var s := FormatKey(c);
    assert s[..4] == Print(c.year);
    assert s[5..7] == PadZeros(Print(c.month), 2);
    assert s[8..] == PadZeros(Print(c.day), 2);
  }

  /** UTC to ISO to UTC is the identity on every midnight of a four-digit year, and the key is accepted. */
  lemma UtcIsoRoundTrip(day: int)
    requires 1000 <= CivilFromDay(day).year <= 9999
    ensures NamesRealDay(IsoDateFromUtc(day * MS_PER_DAY))
    ensures IsoDateToUtc(IsoDateFromUtc(day * MS_PER_DAY)) == day * MS_PER_DAY
  {
    hide CivilFromDay, FormatKey, ParseKey, IsDateKey;
    var c := CivilFromDay(day);
    assert day * MS_PER_DAY / MS_PER_DAY == day;
    FormatHasShape(c);
    ParseFormatKey(c);
    DayOfCivilOfDay(day);
  }

  /** The next key names the calendar successor, whatever month or leap-year end is crossed. */
  lemma NextKeyIsNextCivil(s: string)
    requires IsDateKey(s) && IsCivil(ParseKey(s)) && ParseKey(s).year >= 100
    ensures IsCivil(NextCivil(ParseKey(s)))
    ensures NextKey(s) == FormatKey(NextCivil(ParseKey(s)))
    ensures IsDateKey(NextKey(s)) && ParseKey(NextKey(s)) == NextCivil(ParseKey(s))
    ensures ParseKey(NextKey(s)).year >= 100
  {
    hide ParseKey, FormatKey, DateUtc, CivilFromDay, NextCivil, IsDateKey;
    NextMidnight(ParseKey(s));
    ParseFormatKey(NextCivil(ParseKey(s)));
  }

  lemma WeekdayOfKey(s: string)
    requires IsDateKey(s) && ParseKey(s).year >= 100
    ensures SchemaDayOfWeek(s) == (DayFromCivil(ParseKey(s)) + 3) % 7
  {
    var c := ParseKey(s);
    MidnightDay(c.year, c.month - 1, c.day);
    MondayFirst(DayFromCivil(c));
  }

  /** The Monday-first weekday moves forward by one, modulo seven, from each civil day to the next. */
  lemma WeekdayAdvances(s: string)
    requires IsDateKey(s) && IsCivil(ParseKey(s)) && ParseKey(s).year >= 100
    ensures IsDateKey(NextKey(s))
    ensures SchemaDayOfWeek(NextKey(s)) == (SchemaDayOfWeek(s) + 1) % 7
  {
    hide *;
    NextKeyIsNextCivil(s);
    NextDayIsNextCivil(ParseKey(s));
    WeekdayOfKey(s);
    WeekdayOfKey(NextKey(s));
    WeekStep(DayFromCivil(ParseKey(s)) + 3);
  }

  /** With the advance law, one known Monday fixes every weekday. */
  lemma JuneFifteenIsMonday()
    ensures var monday := FormatKey(CivilDate(2026, 6, 15));
      IsDateKey(monday) && SchemaDayOfWeek(monday) == 0
  {
    hide SchemaDayOfWeek, FormatKey, ParseKey, IsDateKey, DayFromCivil;
    var c := CivilDate(2026, 6, 15);
    ParseFormatKey(c);
    WeekdayOfKey(FormatKey(c));
    KnownDay();
  }

  /** A month or day that is missing is 1, and what follows the day is ignored. */
  lemma KeyDefaults(year: string, month: string, day: string, rest: string)
    requires AllDigits(year) && AllDigits(month) && AllDigits(day)
    ensures IsDateKey(year) && ParseKey(year) == CivilDate(Parse(year), 1, 1)
    ensures IsDateKey(year + "-" + month) && ParseKey(year + "-" + month) == CivilDate(Parse(year), Parse(month), 1)
    ensures var key := year + "-" + month + "-" + day + "-" + rest;
      IsDateKey(key) && ParseKey(key) == CivilDate(Parse(year), Parse(month), Parse(day))
  {
    hide Split, IsDateKey, ParseKey, AllDigits;
    NoDash(year);
    NoDash(month);
    NoDash(day);
    SplitNoSeparator(year, '-');
    PartsRead(year, [year]);
    SplitNoSeparator(month, '-');
    SplitFirst(year, month, '-');
    PartsRead(year + "-" + month, [year, month]);
    SplitFour(year, month, day, rest);
    PartsRead(year + "-" + month + "-" + day + "-" + rest, [year, month, day] + Split(rest, '-'));
  }

  lemma NoDash(s: string)
    requires AllDigits(s)
    ensures '-' !in s
  {
  }

  lemma SplitFour(a: string, b: string, c: string, rest: string)
    requires '-' !in a && '-' !in b && '-' !in c
    ensures Split(a + "-" + b + "-" + c + "-" + rest, '-') == [a, b, c] + Split(rest, '-')
  {
    hide Split;
    SplitFirst(c, rest, '-');
    SplitFirst(b, c + "-" + rest, '-');
    SplitFirst(a, b + "-" + (c + "-" + rest), '-');
    assert a + "-" + b + "-" + c + "-" + rest == a + "-" + (b + "-" + (c + "-" + rest));
  }

  lemma PartsRead(s: string, p: seq<string>)
    requires Split(s, '-') == p && forall i :: 0 <= i < |p| && i < 3 ==> AllDigits(p[i])
    ensures IsDateKey(s) && p != []
    ensures ParseKey(s) == CivilDate(Parse(p[0]), if |p| > 1 then Parse(p[1]) else 1, if |p| > 2 then Parse(p[2]) else 1)
  {
  }

  /** The years 0 to 99 are read as 1900 to 1999, and no others are moved. */
  lemma TwoDigitYears(s: string)
    requires IsDateKey(s)
    ensures var c := ParseKey(s);
      IsoDateToUtc(s) == DayFromCivil(if c.year < 100 then c.(year := c.year + 1900) else c) * MS_PER_DAY
  {
    hide IsDateKey, DayFromYear, DaysBeforeMonth;
  }

  /** The literal form of a key. */
  lemma KeyIsPadded()
    ensures FormatKey(CivilDate(2026, 6, 5)) == "2026-06-05" && FormatKey(CivilDate(987, 12, 31)) == "987-12-31"
  {
    assert Print(2026) == "2026" && Print(987) == "987" && Print(12) == "12" && Print(31) == "31" && Print(6) == "6" && Print(5) == "5";
    assert PadZeros("6", 2) == PadZeros("06", 2) == "06" && PadZeros("5", 2) == PadZeros("05", 2) == "05";
  }
}
