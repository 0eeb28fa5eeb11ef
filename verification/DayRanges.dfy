/** Local days as ranges of instants, and the date keys read off the wall clock. */
module DayRanges {
  import opened Calendar
  import opened IsoDate
  import opened TimeZones

  /** getTimeZoneParts: `Intl` prints the year of the era, so 1 BC reads as year 1. */
  function EraYear(y: int): int {
    if y >= 1 then y else 1 - y
  }

  function LocalCivil(zone: Zone, t: int): CivilDate {
    CivilFromDay(LocalMs(zone, t) / MS_PER_DAY)
  }

  /** The whole seconds of the local day, from the hour, minute and second parts. */
  function SecondsOfDay(zone: Zone, t: int): int {
    var r := LocalMs(zone, t) % MS_PER_DAY;
    var hour, minute, second := r / 3_600_000, r % 3_600_000 / 60_000, r % 60_000 / 1000;
    hour * 3600 + minute * 60 + second
  }

  /** getTimeZoneOffsetMinutes: `Date.UTC` of the printed parts, minus the instant, rounded to minutes. */
  function OffsetFromParts(zone: Zone, t: int): int {
    var c := LocalCivil(zone, t);
    var asUtc := DateUtc(EraYear(c.year), c.month - 1, c.day, 0) + SecondsOfDay(zone, t) * 1000;
    (asUtc - t + 30_000) / 60_000
  }

  /** getDateKeyInTimeZone. */
  function DateKey(zone: Zone, t: int): string {
    var c := LocalCivil(zone, t);
    FormatKey(c.(year := EraYear(c.year)))
  }

  /** The zone as the solver sees it, through the printed parts. */
  function PartsZone(zone: Zone): Zone {
    t => OffsetFromParts(zone, t)
  }

  /** zonedDateTimeToUtc at 00:00. */
  function Midnight(key: string, zone: Zone): int
    requires IsDateKey(key)
  {
    Solve(PartsZone(zone), IsoDateToUtc(key))
  }

  /** getUtcRangeForZonedDate: the first and the last millisecond. */
  function UtcRange(key: string, zone: Zone): (int, int)
    requires IsDateKey(key) && IsDateKey(NextKey(key))
  {
    (Midnight(key, zone), Midnight(NextKey(key), zone) - 1)
  }

  /** The keys the callers pass: a civil day in a year that needs four digits or more. */
  predicate IsDayKey(key: string) {
    IsDateKey(key) && IsCivil(ParseKey(key)) && ParseKey(key).year >= 1000
  }

  function DayOf(key: string): int
    requires IsDayKey(key)
  {
    DayFromCivil(ParseKey(key))
  }

  function DayStart(zone: Zone, day: int): int {
    Solve(zone, day * MS_PER_DAY)
  }

  lemma SecondsDropMillis(zone: Zone, t: int)
    ensures SecondsOfDay(zone, t) * 1000 == LocalMs(zone, t) % MS_PER_DAY - LocalMs(zone, t) % 1000
  {
    hide LocalMs;
    var r := LocalMs(zone, t) % MS_PER_DAY;
    MillisOfDay(LocalMs(zone, t));
    Parts(r);
  }

  lemma MillisOfDay(x: int)
    ensures x % MS_PER_DAY % 1000 == x % 1000
  {
    assert x == x / MS_PER_DAY * 86_400 * 1000 + x % MS_PER_DAY;
  }

  lemma Parts(r: int)
    requires 0 <= r
    ensures (r / 3_600_000 * 3600 + r % 3_600_000 / 60_000 * 60 + r % 60_000 / 1000) * 1000 == r - r % 1000
  {
    var p, q := r % 3_600_000, r % 60_000;
    assert p % 60_000 == q && q % 1000 == r % 1000;
    assert r - p == r / 3_600_000 * 3_600_000;
    assert p - q == p / 60_000 * 60_000;
  }

  /** The day number that the printed year leads to is too late unless the year prints as itself. */
  lemma WrongYearIsLater(c: CivilDate)
    requires IsCivil(c) && c.year < 100
    ensures MakeDay(MakeFullYear(EraYear(c.year)), c.month - 1, c.day) > DayFromCivil(c)
  {
    var y := MakeFullYear(EraYear(c.year));
    CivilBounds(c);
    assert c.year < y;
    if c.year + 1 < y { YearsAscend(c.year + 1, y); }
    assert (c.month - 1) / 12 == 0 && (c.month - 1) % 12 == c.month - 1;
    if c.month > 1 { MonthsAscend(y, 1, c.month); }
  }

  /** The offset read back from the printed parts is the zone's offset exactly from the local year 100 on. */
  lemma OffsetFromPartsExact(zone: Zone, t: int)
    ensures OffsetFromParts(zone, t) == zone(t) <==> LocalCivil(zone, t).year >= 100
  {
    var x := LocalMs(zone, t);
    var c := LocalCivil(zone, t);
    DayOfCivilOfDay(x / MS_PER_DAY);
    SecondsDropMillis(zone, t);
    PartsOffset(zone, t, MakeDay(MakeFullYear(EraYear(c.year)), c.month - 1, c.day));
    if c.year < 100 { WrongYearIsLater(c); }
  }

  lemma PartsOffset(zone: Zone, t: int, day: int)
    requires SecondsOfDay(zone, t) * 1000 == LocalMs(zone, t) % MS_PER_DAY - LocalMs(zone, t) % 1000
    ensures (day * MS_PER_DAY + SecondsOfDay(zone, t) * 1000 - t + 30_000) / 60_000
         == zone(t) + 1440 * (day - LocalMs(zone, t) / MS_PER_DAY)
  {
    var x := LocalMs(zone, t);
    assert x == x / MS_PER_DAY * MS_PER_DAY + x % MS_PER_DAY;
    assert 0 <= x % 1000 < 1000;
  }

  /** No transition moves the clocks forward by `limit` minutes or more. */
  ghost predicate JumpsUnder(zone: Zone, limit: int) {
    forall j :: IsJump(zone, j) ==> zone(j) - zone(j - 1) < limit
  }

  lemma SingleJump(zone: Zone, gap: int, limit: int, x: int, y: int)
    requires Separated(zone, gap) && JumpsUnder(zone, limit) && limit > 0
    requires x <= y <= x + gap
    ensures zone(y) - zone(x) < limit
  {
    if zone(x) != zone(y) {
      var j := OneJump(zone, gap, x, y, x, y);
      assert zone(j - 1) == zone(x);
    }
  }

  lemma ThreeJumps(zone: Zone, gap: int, i: int, j: int, k: int)
    requires Separated(zone, gap) && i < j < k && IsJump(zone, i) && IsJump(zone, j) && IsJump(zone, k)
    ensures k - i >= 2 * gap
  {
    assert j - i >= gap && k - j >= gap;
  }

  /** When the clocks never move forward by a day, every local day has at least one instant. */
  lemma DaysAreNonEmpty(zone: Zone, m: int, day: int)
    requires WellSpaced(zone, m) && JumpsUnder(zone, 1440)
    ensures DayStart(zone, day) < DayStart(zone, day + 1)
  {
    hide WellSpaced, JumpsUnder, IsJump;
    var b := day * MS_PER_DAY;
    var e := b + MS_PER_DAY;
    assert (day + 1) * MS_PER_DAY == e;
    SecondGuesses(zone, m, b, e, b - OffsetMs(zone, b), e - OffsetMs(zone, e));
  }

  /** The offsets at the first guesses for two consecutive midnights differ by less than a day. */
  lemma SecondGuesses(zone: Zone, m: int, b: int, e: int, x: int, y: int)
    requires WellSpaced(zone, m) && JumpsUnder(zone, 1440)
    requires e == b + MS_PER_DAY && x == b - OffsetMs(zone, b) && y == e - OffsetMs(zone, e)
    ensures zone(y) - zone(x) < 1440
  {
    hide JumpsUnder, IsJump, Separated;
    var w := m * MS_PER_MINUTE;
    Near(zone, m, 0, b);
    Near(zone, m, 0, e);
    Near(zone, m, 0, x);
    Near(zone, m, 0, y);
    if 2 * w >= MS_PER_DAY {
      SingleJump(zone, 2 * w, 1440, b, e);
      if y - x <= 2 * w {
        SingleJump(zone, 2 * w, 1440, x, y);
      } else {
        FallingDay(zone, m, b, e, x, y);
      }
    }
  }

  /** The clocks go back between the two midnights; the first guesses then lie far apart. */
  lemma FallingDay(zone: Zone, m: int, b: int, e: int, x: int, y: int)
    requires WellSpaced(zone, m) && JumpsUnder(zone, 1440)
    requires e == b + MS_PER_DAY && x == b - OffsetMs(zone, b) && y == e - OffsetMs(zone, e)
    requires y - x > 2 * m * MS_PER_MINUTE >= MS_PER_DAY
    ensures zone(y) - zone(x) < 1440
  {
    var w := m * MS_PER_MINUTE;
    var gap := 2 * w;
    Near(zone, m, 0, b);
    Near(zone, m, 0, e);
    Near(zone, m, 0, x);
    Near(zone, m, 0, y);
    var j := OneJump(zone, gap, b, e, b, e);
    assert zone(e) < zone(b) && x < e && b < y;
    if y > e { SingleJump(zone, gap, 1440, e, y); }
    if x < b { SingleJump(zone, gap, 1440, x, b); }
    if x < b && e < y && zone(x) != zone(b) && zone(y) != zone(e) {
      var i := OneJump(zone, gap, x, b, x, b);
      var k := OneJump(zone, gap, e, y, e, y);
      ThreeJumps(zone, gap, i, j, k);
    }
  }

  /**
   * The bound is tight. Where the clocks once skip a whole day, as in a move across the date line, the day before
   * the skipped one is left with no instant, and its instants fall to the skipped day.
   */
  lemma SkippedDayEmptiesTheOneBefore(zone: Zone, day: int)
    requires forall t :: zone(t) == if t < day * MS_PER_DAY + 600 * MS_PER_MINUTE then -600 else 840
    ensures WellSpaced(zone, 840) && JumpsUnder(zone, 1441)
    ensures DayStart(zone, day - 1) == DayStart(zone, day)
    ensures forall t :: DayStart(zone, day) <= t < DayStart(zone, day + 1) ==> LocalMs(zone, t) / MS_PER_DAY == day - 1
  {
    hide DayStart;
    SkippedDayStarts(zone, day);
    forall j | IsJump(zone, j) ensures j == day * MS_PER_DAY + 600 * MS_PER_MINUTE {}
    forall t | DayStart(zone, day) <= t < DayStart(zone, day + 1) ensures LocalMs(zone, t) / MS_PER_DAY == day - 1 {
      assert (day - 1) * MS_PER_DAY == day * MS_PER_DAY - MS_PER_DAY;
      assert (day - 1) * MS_PER_DAY <= LocalMs(zone, t) < day * MS_PER_DAY;
    }
  }

  lemma SkippedDayStarts(zone: Zone, day: int)
    requires forall t :: zone(t) == if t < day * MS_PER_DAY + 600 * MS_PER_MINUTE then -600 else 840
    ensures DayStart(zone, day - 1) == DayStart(zone, day) == day * MS_PER_DAY - 840 * MS_PER_MINUTE
    ensures DayStart(zone, day + 1) == day * MS_PER_DAY + 600 * MS_PER_MINUTE
  {
    assert (day - 1) * MS_PER_DAY == day * MS_PER_DAY - MS_PER_DAY;
    assert (day + 1) * MS_PER_DAY == day * MS_PER_DAY + MS_PER_DAY;
  }

  lemma YearOfDay(day: int, y: int)
    requires day >= DayFromYear(y)
    ensures CivilFromDay(day).year >= y
  {
    var c := CivilFromDay(day);
    DayOfCivilOfDay(day);
    CivilBounds(c);
    if c.year + 1 < y { YearsAscend(c.year + 1, y); }
  }

  lemma LocalYear(zone: Zone, m: int, t: int, day: int)
    requires Bounded(zone, m) && m <= 1440 && t >= (day - 1) * MS_PER_DAY && day - 2 >= DayFromYear(100)
    ensures zone(t) == PartsZone(zone)(t)
  {
    Near(zone, m, 0, t);
    assert LocalMs(zone, t) / MS_PER_DAY >= day - 2;
    YearOfDay(LocalMs(zone, t) / MS_PER_DAY, 100);
    OffsetFromPartsExact(zone, t);
  }

  /** Reading offsets through the printed parts does not change what the solver returns from the year 101 on. */
  lemma PartsSolveAgrees(zone: Zone, m: int, base: int)
    requires Bounded(zone, m) && m <= 1440 && base >= DayFromYear(101) * MS_PER_DAY
    ensures Solve(PartsZone(zone), base) == Solve(zone, base)
  {
    hide OffsetFromParts, DayFromYear, IsLeap;
    var day := base / MS_PER_DAY;
    YearLength(100);
    Near(zone, m, 0, base);
    LocalYear(zone, m, base, day);
    LocalYear(zone, m, base - OffsetMs(zone, base), day);
  }

  /** The range of a date runs from the start of its day to the millisecond before the start of the next. */
  lemma RangeOfDay(zone: Zone, m: int, key: string)
    requires Bounded(zone, m) && m <= 1440 && IsDayKey(key)
    ensures IsDayKey(NextKey(key)) && DayOf(NextKey(key)) == DayOf(key) + 1
    ensures UtcRange(key, zone) == (DayStart(zone, DayOf(key)), DayStart(zone, DayOf(key) + 1) - 1)
  {
    hide IsDateKey, ParseKey, IsCivil, DayOf, DayStart, Midnight, NextKey, Bounded;
    NextDayKey(key);
    MidnightIsDayStart(zone, m, key);
    MidnightIsDayStart(zone, m, NextKey(key));
  }

  /** Each local day ends one millisecond before the next begins, across month and leap-year ends, and is not empty. */
  lemma RangesTile(zone: Zone, m: int, key: string)
    requires WellSpaced(zone, m) && m <= 1440 && JumpsUnder(zone, 1440) && IsDayKey(key)
    ensures IsDayKey(NextKey(key)) && DayOf(NextKey(key)) == DayOf(key) + 1
    ensures IsDayKey(NextKey(NextKey(key)))
    ensures UtcRange(key, zone).0 <= UtcRange(key, zone).1
    ensures UtcRange(key, zone).1 + 1 == UtcRange(NextKey(key), zone).0
    ensures UtcRange(key, zone) == (DayStart(zone, DayOf(key)), DayStart(zone, DayOf(key) + 1) - 1)
  {
    hide IsDateKey, ParseKey, IsCivil, DayOf, DayStart, UtcRange, NextKey, WellSpaced, JumpsUnder;
    WellSpacedIsBounded(zone, m);
    RangeOfDay(zone, m, key);
    RangeOfDay(zone, m, NextKey(key));
    DaysAreNonEmpty(zone, m, DayOf(key));
  }

  lemma WellSpacedIsBounded(zone: Zone, m: int)
    requires WellSpaced(zone, m)
    ensures Bounded(zone, m)
  {
  }

  lemma NextDayKey(key: string)
    requires IsDayKey(key)
    ensures IsDayKey(NextKey(key)) && DayOf(NextKey(key)) == DayOf(key) + 1
  {
    hide IsDateKey, ParseKey, NextKey, DayFromCivil;
    NextKeyIsNextCivil(key);
    NextDayIsNextCivil(ParseKey(key));
  }

  lemma MidnightIsDayStart(zone: Zone, m: int, key: string)
    requires IsDayKey(key) && Bounded(zone, m) && m <= 1440
    ensures Midnight(key, zone) == DayStart(zone, DayOf(key))
  {
    hide IsDateKey, ParseKey, Solve;
    var c := ParseKey(key);
    CivilBounds(c);
    YearsAscend(101, c.year);
    PartsSolveAgrees(zone, m, DayFromCivil(c) * MS_PER_DAY);
  }

  /** The days cover the whole timeline, and no instant lies in two of them. */
  lemma EveryInstantInOneDay(zone: Zone, m: int, t: int) returns (day: int)
    requires WellSpaced(zone, m) && JumpsUnder(zone, 1440)
    ensures DayStart(zone, day) <= t < DayStart(zone, day + 1)
    ensures forall d :: DayStart(zone, d) <= t < DayStart(zone, d + 1) ==> d == day
  {
    hide DayStart;
    var from := EarlierStart(zone, m, t);
    day := LastStarted(zone, m, from, t);
    forall d | DayStart(zone, d) <= t < DayStart(zone, d + 1) ensures d == day {
      if d < day { StartsAscend(zone, m, d + 1, day); }
      if day < d { StartsAscend(zone, m, day + 1, d); }
    }
  }

  lemma EarlierStart(zone: Zone, m: int, t: int) returns (day: int)
    requires Bounded(zone, m)
    ensures DayStart(zone, day) <= t
  {
    day := (t - m * MS_PER_MINUTE) / MS_PER_DAY;
    Candidates(zone, m, day * MS_PER_DAY);
  }

  lemma {:induction false} LastStarted(zone: Zone, m: int, from: int, t: int) returns (day: int)
    requires WellSpaced(zone, m) && DayStart(zone, from) <= t
    ensures DayStart(zone, day) <= t < DayStart(zone, day + 1)
    decreases t + m * MS_PER_MINUTE - from * MS_PER_DAY
  {
    Candidates(zone, m, from * MS_PER_DAY);
    Candidates(zone, m, (from + 1) * MS_PER_DAY);
    if t < DayStart(zone, from + 1) {
      day := from;
    } else {
      day := LastStarted(zone, m, from + 1, t);
    }
  }

  lemma {:induction false} StartsAscend(zone: Zone, m: int, d: int, e: int)
    requires WellSpaced(zone, m) && JumpsUnder(zone, 1440) && d <= e
    ensures DayStart(zone, d) <= DayStart(zone, e)
    decreases e - d
  {
    if d < e {
      DaysAreNonEmpty(zone, m, d);
      StartsAscend(zone, m, d + 1, e);
    }
  }

  /** `s` is the one instant that reads as `base`. */
  ghost predicate OccursOnceAt(zone: Zone, base: int, s: int) {
    forall t :: LocalMs(zone, t) == base <==> t == s
  }

  lemma {:induction false} FirstBelow(zone: Zone, base: int, s: int, t: int) returns (j: int)
    requires s < t && LocalMs(zone, s) >= base > LocalMs(zone, t)
    ensures s < j <= t && LocalMs(zone, j - 1) >= base > LocalMs(zone, j)
    decreases t - s
  {
    if LocalMs(zone, s + 1) < base {
      j := s + 1;
    } else {
      j := FirstBelow(zone, base, s + 1, t);
    }
  }

  /** A clock that reads `base` and later reads earlier must read `base` again. */
  lemma ReadsAgain(zone: Zone, m: int, base: int, s: int, t: int) returns (u: int)
    requires WellSpaced(zone, m) && s < t && LocalMs(zone, s) == base > LocalMs(zone, t)
    ensures s < u && LocalMs(zone, u) == base
  {
    var j := FirstBelow(zone, base, s, t);
    Near(zone, m, 0, j);
    Near(zone, m, 0, j - 1);
    var k := base - LocalMs(zone, j);
    assert IsJump(zone, j);
    forall i | j < i <= j + k ensures !IsJump(zone, i) {
      assert IsJump(zone, i) ==> i - j >= 2 * m * MS_PER_MINUTE;
    }
    NoJumpNoChange(zone, j, j + k);
    u := j + k;
  }

  /** A clock that reads `base` after having read later has read `base` before. */
  lemma HasRead(zone: Zone, m: int, base: int, s: int, t: int) returns (u: int)
    requires WellSpaced(zone, m) && t < s && LocalMs(zone, s) == base < LocalMs(zone, t)
    ensures u < s && LocalMs(zone, u) == base
  {
    var j := FirstBelow(zone, base + 1, t, s);
    Near(zone, m, 0, j);
    Near(zone, m, 0, j - 1);
    var k := LocalMs(zone, j - 1) - base;
    assert IsJump(zone, j);
    forall i | j - 1 - k < i <= j - 1 ensures !IsJump(zone, i) {
      assert IsJump(zone, i) ==> j - i >= 2 * m * MS_PER_MINUTE;
    }
    NoJumpNoChange(zone, j - 1 - k, j - 1);
    u := j - 1 - k;
  }

  /** Around its only occurrence a reading splits the timeline in two. */
  lemma OnceSplitsTimeline(zone: Zone, m: int, base: int, s: int, t: int)
    requires WellSpaced(zone, m) && OccursOnceAt(zone, base, s)
    ensures t >= s <==> LocalMs(zone, t) >= base
  {
    assert LocalMs(zone, s) == base;
    if t > s && LocalMs(zone, t) < base {
      var u := ReadsAgain(zone, m, base, s, t);
    }
    if t < s && LocalMs(zone, t) > base {
      var u := HasRead(zone, m, base, s, t);
    }
  }

  /** When both midnights of a day occur exactly once, its range holds the instants that read as that day. */
  lemma RangeIsLocalDay(zone: Zone, m: int, day: int, s: int, e: int, t: int)
    requires WellSpaced(zone, m)
    requires OccursOnceAt(zone, day * MS_PER_DAY, s) && OccursOnceAt(zone, (day + 1) * MS_PER_DAY, e)
    ensures DayStart(zone, day) <= t < DayStart(zone, day + 1) <==> LocalMs(zone, t) / MS_PER_DAY == day
  {
    var b := day * MS_PER_DAY;
    assert LocalMs(zone, s) == b && LocalMs(zone, e) == b + MS_PER_DAY;
    SolveExact(zone, m, b);
    SolveExact(zone, m, b + MS_PER_DAY);
    assert DayStart(zone, day) == s && DayStart(zone, day + 1) == e;
    OnceSplitsTimeline(zone, m, b, s, t);
    OnceSplitsTimeline(zone, m, b + MS_PER_DAY, e, t);
  }

  /** A printed key names one day of the common era and, since the era is not printed, one day before it. */
  lemma KeyNamesDay(zone: Zone, t: int, day: int)
    requires CivilFromDay(day).year >= 1
    ensures DateKey(zone, t) == FormatKey(CivilFromDay(day))
      <==> (|| LocalMs(zone, t) / MS_PER_DAY == day
            || LocalCivil(zone, t) == CivilFromDay(day).(year := 1 - CivilFromDay(day).year))
  {
    hide FormatKey, IsDateKey, ParseKey, CivilFromDay, DayFromCivil, LocalMs;
    var c := LocalCivil(zone, t);
    var printed := c.(year := EraYear(c.year));
    CivilIsShort(c);
    CivilIsShort(CivilFromDay(day));
    ParseFormatKey(printed);
    ParseFormatKey(CivilFromDay(day));
    DayOfCivilOfDay(day);
    DayOfCivilOfDay(LocalMs(zone, t) / MS_PER_DAY);
  }

  /** An instant of this century and one from before the common era share a key, though their local days differ. */
  lemma ErasShareAKey(zone: Zone)
    requires forall t :: zone(t) == 0
    ensures var now, then_ := DayFromCivil(CivilDate(2026, 6, 15)) * MS_PER_DAY, DayFromCivil(CivilDate(-2025, 6, 15)) * MS_PER_DAY;
      now != then_ && DateKey(zone, now) == DateKey(zone, then_)
  {
    hide FormatKey, CivilFromDay, DayFromCivil;
    var c, b := CivilDate(2026, 6, 15), CivilDate(-2025, 6, 15);
    CivilOfDayOfCivil(c);
    CivilOfDayOfCivil(b);
    assert DayFromCivil(c) * MS_PER_DAY / MS_PER_DAY == DayFromCivil(c) && DayFromCivil(b) * MS_PER_DAY / MS_PER_DAY == DayFromCivil(b);
  }

  lemma CivilIsShort(c: CivilDate)
    requires IsCivil(c)
    ensures 0 <= c.month < 100 && 0 <= c.day < 100
  {
  }

  /**
   * The range of a date holds the instants whose date key is that date, and of the others
   * only the day of the same printed year before the common era shares its key.
   */
  lemma RangeIsDateKey(zone: Zone, m: int, key: string, s: int, e: int, t: int)
    requires WellSpaced(zone, m) && m <= 1440
    requires IsDayKey(key) && key == FormatKey(ParseKey(key))
    requires OccursOnceAt(zone, DayOf(key) * MS_PER_DAY, s) && OccursOnceAt(zone, (DayOf(key) + 1) * MS_PER_DAY, e)
    ensures IsDayKey(NextKey(key))
    ensures DateKey(zone, t) == key
      <==> (|| UtcRange(key, zone).0 <= t <= UtcRange(key, zone).1
            || LocalCivil(zone, t) == ParseKey(key).(year := 1 - ParseKey(key).year))
  {
    hide IsDateKey, ParseKey, NextKey, Solve, NextCivil, DayFromCivil, CivilFromDay, FormatKey, DateKey, LocalMs, UtcRange;
    RangeOfDay(zone, m, key);
    RangeIsLocalDay(zone, m, DayOf(key), s, e, t);
    CivilOfDayOfCivil(ParseKey(key));
    KeyNamesDay(zone, t, DayOf(key));
  }
}
