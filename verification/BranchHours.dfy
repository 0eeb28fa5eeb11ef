/** Opening hours: the window of a local date, and the two evaluators over it. */
module BranchHours {
  import opened Calendar
  import opened Decimal
  import opened IsoDate
  import opened TimeZones
  import opened DayRanges
  import opened Options

  /** BranchHoursWindow; the empty string stands for a time that is not set. */
  datatype Window = Window(openTime: string, closeTime: string, isClosed: bool, breakStart: string, breakEnd: string)

  datatype Reason = Open | ClosedDay | OutsideHours | Break

  datatype Bounds = Bounds(openAt: int, closeAt: int, breakStart: Option<int>, breakEnd: Option<int>)

  datatype Evaluation = Evaluation(isOpen: bool, reason: Reason, localDate: string, window: Option<Window>, bounds: Option<Bounds>)

  /** A time whose hours, and minutes if given, are decimal numbers or empty. */
  predicate IsClockTime(s: string) {
    var p := Split(s, ':');
    AllDigits(p[0]) && (|p| > 1 ==> AllDigits(p[1]))
  }

  predicate WellFormed(w: Window) {
    && (w.openTime != "" ==> IsClockTime(w.openTime))
    && (w.closeTime != "" ==> IsClockTime(w.closeTime))
    && (w.breakStart != "" ==> IsClockTime(w.breakStart))
    && (w.breakEnd != "" ==> IsClockTime(w.breakEnd))
  }

  /** `time.split(':').map(Number)`: missing minutes are 0, seconds are ignored. */
  function MinutesOf(time: string): int
    requires IsClockTime(time)
  {
    var p := Split(time, ':');
    Parse(p[0]) * 60 + if |p| > 1 then Parse(p[1]) else 0
  }

  /** The wall-clock reading a date and a time name, as if it were UTC. */
  function BaseUtc(date: string, time: string): int
    requires IsDateKey(date) && IsClockTime(time)
  {
    var c := ParseKey(date);
    DateUtc(c.year, c.month - 1, c.day, MinutesOf(time))
  }

  function ToUtc(date: string, time: string, zone: Zone): int
    requires IsDateKey(date) && IsClockTime(time)
  {
    Solve(PartsZone(zone), BaseUtc(date, time))
  }

  /** zonedDateTimeToUtc: two rounds of correcting the candidate by the offset found there. */
  method ZonedDateTimeToUtc(date: string, time: string, zone: Zone) returns (candidate: int)
    requires IsDateKey(date) && IsClockTime(time)
    ensures candidate == ToUtc(date, time, zone)
  {
    hide OffsetFromParts, BaseUtc;
    var baseUtc := BaseUtc(date, time);
    candidate := baseUtc;
    for index := 0 to 2
      invariant index == 0 ==> candidate == baseUtc
      invariant index == 1 ==> candidate == baseUtc - OffsetFromParts(zone, baseUtc) * MS_PER_MINUTE
      invariant index == 2 ==> candidate == ToUtc(date, time, zone)
    {
      var offsetMinutes := OffsetFromParts(zone, candidate);
      candidate := baseUtc - offsetMinutes * MS_PER_MINUTE;
    }
  }

  lemma SolvesBase(date: string, time: string, zone: Zone, m: int)
    requires IsDayKey(date) && IsClockTime(time) && Bounded(zone, m) && m <= 1440
    ensures ToUtc(date, time, zone) == Solve(zone, BaseUtc(date, time))
  {
    hide IsDateKey, ParseKey, PartsZone, IsClockTime, MinutesOf, Solve, BaseUtc;
    var c := ParseKey(date);
    BaseOfTime(date, time);
    CivilBounds(c);
    YearsAscend(101, c.year);
    PartsSolveAgrees(zone, m, BaseUtc(date, time));
  }

  /** The instant returned reads, on the wall clock, the date and time asked for, exactly when such an instant exists. */
  lemma ZonedTimeIsExact(date: string, time: string, zone: Zone, m: int)
    requires IsDayKey(date) && IsClockTime(time) && WellSpaced(zone, m) && m <= 1440
    ensures LocalMs(zone, ToUtc(date, time, zone)) == BaseUtc(date, time)
       <==> LocalTimeExists(zone, BaseUtc(date, time))
  {
    hide IsClockTime, BaseUtc, ToUtc, Separated;
    SolvesBase(date, time, zone, m);
    SolveExact(zone, m, BaseUtc(date, time));
  }

  /** A time the clocks skip is answered by an instant off by exactly the size of the jump. */
  lemma SkippedTimeMissesByTheJump(date: string, time: string, zone: Zone, m: int) returns (j: Transition)
    requires IsDayKey(date) && IsClockTime(time) && WellSpaced(zone, m) && m <= 1440
    requires !LocalTimeExists(zone, BaseUtc(date, time))
    ensures Describes(zone, m * MS_PER_MINUTE, BaseUtc(date, time), j) && j.before < j.after
    ensures LocalMs(zone, ToUtc(date, time, zone)) - BaseUtc(date, time)
         == (if j.at <= BaseUtc(date, time) then 1 else -1) * (j.after - j.before) * MS_PER_MINUTE
  {
    hide IsClockTime, BaseUtc, ToUtc, Separated, Describes;
    SolvesBase(date, time, zone, m);
    j := GapMissesByTheJump(zone, m, BaseUtc(date, time));
  }

  predicate IsShut(window: Option<Window>) {
    window.None? || window.value.isClosed || window.value.openTime == "" || window.value.closeTime == ""
  }

  /** What both evaluators ask of their arguments: a readable date, and times as the validators store them. */
  predicate Readable(window: Option<Window>, localDate: string) {
    IsDateKey(localDate) && (window.Some? ==> WellFormed(window.value))
  }

  /** resolveWindowUtcBounds. */
  function ResolveBounds(localDate: string, w: Window, zone: Zone): Bounds
    requires IsDateKey(localDate) && WellFormed(w) && w.openTime != "" && w.closeTime != ""
  {
    Bounds(ToUtc(localDate, w.openTime, zone), ToUtc(localDate, w.closeTime, zone),
           if w.breakStart == "" then None else Some(ToUtc(localDate, w.breakStart, zone)),
           if w.breakEnd == "" then None else Some(ToUtc(localDate, w.breakEnd, zone)))
  }

  /** The instant evaluator, once the bounds are known. */
  function InstantReason(at: int, b: Bounds): Reason {
    if at < b.openAt || at >= b.closeAt then OutsideHours
    else if b.breakStart.Some? && b.breakEnd.Some? && b.breakStart.value <= at < b.breakEnd.value then Break
    else Open
  }

  /** evaluateBranchAvailabilityAtInstant. */
  function EvaluateAtInstant(at: int, zone: Zone, window: Option<Window>, localDate: string): Evaluation
    requires Readable(window, localDate)
  {
    if IsShut(window) then Evaluation(false, ClosedDay, localDate, None, None)
    else
      var bounds := ResolveBounds(localDate, window.value, zone);
      var reason := InstantReason(at, bounds);
      Evaluation(reason == Open, reason, localDate, window, Some(bounds))
  }

  predicate IntervalsOverlap(startA: int, endA: int, startB: int, endB: int) {
    startA < endB && startB < endA
  }

  function SlotReason(start: int, end: int, b: Bounds): Reason {
    if start < b.openAt || end > b.closeAt then OutsideHours
    else if b.breakStart.Some? && b.breakEnd.Some? && IntervalsOverlap(start, end, b.breakStart.value, b.breakEnd.value) then Break
    else Open
  }

  /** evaluateAppointmentSlotAgainstWindow. */
  function EvaluateSlot(start: int, minutes: int, zone: Zone, window: Option<Window>, localDate: string): Reason
    requires Readable(window, localDate)
  {
    if IsShut(window) then ClosedDay
    else SlotReason(start, start + minutes * MS_PER_MINUTE, ResolveBounds(localDate, window.value, zone))
  }

  /** The slot spans, within the hours, a break that ends no later than it starts. */
  predicate SpansInvertedBreak(start: int, minutes: int, zone: Zone, window: Option<Window>, localDate: string)
    requires Readable(window, localDate)
  {
    !IsShut(window) &&
    var b, end := ResolveBounds(localDate, window.value, zone), start + minutes * MS_PER_MINUTE;
    && b.openAt <= start && end <= b.closeAt
    && b.breakStart.Some? && b.breakEnd.Some? && b.breakEnd.value <= b.breakStart.value
    && start < b.breakEnd.value && b.breakStart.value < end
  }

  ghost predicate EveryInstantOpen(start: int, minutes: int, zone: Zone, window: Option<Window>, localDate: string)
    requires Readable(window, localDate)
  {
    forall at :: start <= at < start + minutes * MS_PER_MINUTE ==> EvaluateAtInstant(at, zone, window, localDate).isOpen
  }

  /**
   * A slot is open exactly when each of its instants is, except where it spans an inverted break:
   * there, and only there, the slot evaluator refuses what the instant evaluator allows throughout.
   */
  lemma SlotAgreesWithInstants(start: int, minutes: int, zone: Zone, window: Option<Window>, localDate: string)
    requires Readable(window, localDate) && minutes > 0
    ensures EvaluateSlot(start, minutes, zone, window, localDate) == Open ==> EveryInstantOpen(start, minutes, zone, window, localDate)
    ensures (EvaluateSlot(start, minutes, zone, window, localDate) == Open <==> EveryInstantOpen(start, minutes, zone, window, localDate))
        <==> !SpansInvertedBreak(start, minutes, zone, window, localDate)
  {
    hide ToUtc, IsDateKey, WellFormed;
    var end := start + minutes * MS_PER_MINUTE;
    if IsShut(window) {
      assert !EvaluateAtInstant(start, zone, window, localDate).isOpen;
    } else {
      var b := ResolveBounds(localDate, window.value, zone);
      BoundsAgree(start, end, b);
      if at :| start <= at < end && InstantReason(at, b) != Open {
        assert !EvaluateAtInstant(at, zone, window, localDate).isOpen;
      }
    }
  }

  lemma BoundsAgree(start: int, end: int, b: Bounds)
    requires start < end
    ensures SlotReason(start, end, b) == Open ==> forall at :: start <= at < end ==> InstantReason(at, b) == Open
    ensures SlotReason(start, end, b) != Open
      ==> (|| (exists at :: start <= at < end && InstantReason(at, b) != Open)
           || (b.openAt <= start && end <= b.closeAt && b.breakStart.Some? && b.breakEnd.Some?
               && b.breakEnd.value <= b.breakStart.value && start < b.breakEnd.value && b.breakStart.value < end))
    ensures (&& b.breakStart.Some? && b.breakEnd.Some? && b.breakEnd.value <= b.breakStart.value
             && b.openAt <= start && end <= b.closeAt)
      ==> forall at :: start <= at < end ==> InstantReason(at, b) == Open
  {
    if SlotReason(start, end, b) == OutsideHours {
      assert InstantReason(if start < b.openAt then start else end - 1, b) == OutsideHours;
    } else if SlotReason(start, end, b) == Break && b.breakStart.value < b.breakEnd.value {
      assert InstantReason(if start < b.breakStart.value then b.breakStart.value else start, b) == Break;
    }
  }

  lemma ClockReads(hours: string, minutes: string)
    requires |hours| == 2 && |minutes| == 2 && AllDigits(hours) && AllDigits(minutes)
    ensures IsClockTime(hours + ":" + minutes)
    ensures MinutesOf(hours + ":" + minutes) == (10 * DigitValue(hours[0]) + DigitValue(hours[1])) * 60 + 10 * DigitValue(minutes[0]) + DigitValue(minutes[1])
  {
    SplitFirst(hours, minutes, ':');
    SplitNoSeparator(minutes, ':');
    TwoDigits(hours);
    TwoDigits(minutes);
  }

  /** A window as the validators accept it, whose break ends an hour before it starts. */
  const INVERTED := Window("09:00", "17:00", false, "13:00", "12:00")

  lemma InvertedTimes()
    ensures WellFormed(INVERTED)
    ensures MinutesOf("09:00") == 540 && MinutesOf("17:00") == 1020 && MinutesOf("13:00") == 780 && MinutesOf("12:00") == 720
  {
    hide IsClockTime, MinutesOf;
    ClockReads("09", "00");
    ClockReads("17", "00");
    ClockReads("13", "00");
    ClockReads("12", "00");
    assert "09" + ":" + "00" == "09:00" && "17" + ":" + "00" == "17:00" && "13" + ":" + "00" == "13:00" && "12" + ":" + "00" == "12:00";
  }

  lemma UtcTime(zone: Zone, date: string, time: string)
    requires (forall t :: zone(t) == 0) && IsDayKey(date) && IsClockTime(time)
    ensures ToUtc(date, time, zone) == DayOf(date) * MS_PER_DAY + MinutesOf(time) * MS_PER_MINUTE
  {
    hide ToUtc, BaseUtc, IsClockTime, MinutesOf, IsDateKey, ParseKey, IsCivil, DayFromCivil;
    SolvesBase(date, time, zone, 0);
    BaseOfTime(date, time);
  }

  /** The two evaluators do differ: from 11:00 to 14:00 that window is open at each instant, and refused as a slot. */
  lemma InvertedBreakDisagrees(zone: Zone, date: string)
    requires (forall t :: zone(t) == 0) && IsDayKey(date)
    ensures Readable(Some(INVERTED), date)
    ensures var start := DayOf(date) * MS_PER_DAY + 660 * MS_PER_MINUTE;
      && EvaluateSlot(start, 180, zone, Some(INVERTED), date) == Break
      && EveryInstantOpen(start, 180, zone, Some(INVERTED), date)
  {
    hide ToUtc, IsDateKey, WellFormed, MinutesOf, IsClockTime, DayOf, ParseKey, IsCivil;
    InvertedTimes();
    WellFormedTimes(INVERTED);
    UtcTime(zone, date, "09:00");
    UtcTime(zone, date, "17:00");
    UtcTime(zone, date, "13:00");
    UtcTime(zone, date, "12:00");
  }

  lemma WellFormedTimes(w: Window)
    requires WellFormed(w)
    ensures w.openTime != "" ==> IsClockTime(w.openTime)
    ensures w.closeTime != "" ==> IsClockTime(w.closeTime)
    ensures w.breakStart != "" ==> IsClockTime(w.breakStart)
    ensures w.breakEnd != "" ==> IsClockTime(w.breakEnd)
  {
  }

  /** What the opening hours say of a wall-clock time, given in milliseconds since local midnight. */
  function WallClockReason(w: Window, clock: int): Reason
    requires WellFormed(w) && w.openTime != "" && w.closeTime != ""
  {
    if clock < MinutesOf(w.openTime) * MS_PER_MINUTE || clock >= MinutesOf(w.closeTime) * MS_PER_MINUTE then OutsideHours
    else if w.breakStart != "" && w.breakEnd != ""
      && MinutesOf(w.breakStart) * MS_PER_MINUTE <= clock < MinutesOf(w.breakEnd) * MS_PER_MINUTE then Break
    else Open
  }

  /** No transition comes near the local day that instant `at` belongs to, for times up to `latest` minutes. */
  ghost predicate SteadyDay(zone: Zone, m: int, latest: int, at: int) {
    var b := LocalMs(zone, at) / MS_PER_DAY * MS_PER_DAY;
    forall t :: b - m * MS_PER_MINUTE <= t <= b + (latest + m) * MS_PER_MINUTE ==> zone(t) == zone(at)
  }

  predicate TimesUpTo(w: Window, latest: int)
    requires WellFormed(w) && w.openTime != "" && w.closeTime != ""
  {
    && MinutesOf(w.openTime) <= latest && MinutesOf(w.closeTime) <= latest
    && (w.breakStart != "" ==> MinutesOf(w.breakStart) <= latest)
    && (w.breakEnd != "" ==> MinutesOf(w.breakEnd) <= latest)
  }

  lemma TimeOnSteadyDay(zone: Zone, m: int, latest: int, at: int, time: string)
    requires Bounded(zone, m) && m <= 1440 && SteadyDay(zone, m, latest, at)
    requires LocalCivil(zone, at).year >= 1000 && IsClockTime(time) && MinutesOf(time) <= latest
    ensures IsDateKey(DateKey(zone, at))
    ensures ToUtc(DateKey(zone, at), time, zone) - at
         == MinutesOf(time) * MS_PER_MINUTE - LocalMs(zone, at) % MS_PER_DAY
  {
    hide FormatKey, ParseKey, IsDateKey, PartsZone, DateKey, DayFromCivil, CivilFromDay, IsClockTime, MinutesOf;
    var c := LocalCivil(zone, at);
    var b := LocalMs(zone, at) / MS_PER_DAY * MS_PER_DAY;
    KeyReadsBack(zone, at);
    BaseOfTime(DateKey(zone, at), time);
    DayOfCivilOfDay(LocalMs(zone, at) / MS_PER_DAY);
    CivilBounds(c);
    YearsAscend(101, c.year);
    var base := b + MinutesOf(time) * MS_PER_MINUTE;
    PartsSolveAgrees(zone, m, base);
    SteadySolve(zone, m, latest, at, MinutesOf(time));
  }

  lemma SteadySolve(zone: Zone, m: int, latest: int, at: int, minutes: int)
    requires Bounded(zone, m) && SteadyDay(zone, m, latest, at) && 0 <= minutes <= latest
    ensures var b := LocalMs(zone, at) / MS_PER_DAY * MS_PER_DAY;
      Solve(zone, b + minutes * MS_PER_MINUTE) == b + (minutes - zone(at)) * MS_PER_MINUTE
  {
    var base := LocalMs(zone, at) / MS_PER_DAY * MS_PER_DAY + minutes * MS_PER_MINUTE;
    Near(zone, m, 0, at);
    assert zone(base) == zone(at);
    assert zone(base - OffsetMs(zone, base)) == zone(at);
  }

  lemma KeyReadsBack(zone: Zone, at: int)
    requires LocalCivil(zone, at).year >= 1000
    ensures IsDateKey(DateKey(zone, at)) && ParseKey(DateKey(zone, at)) == LocalCivil(zone, at)
  {
    hide FormatKey, ParseKey, IsDateKey, CivilFromDay;
    CivilIsShort(LocalCivil(zone, at));
    ParseFormatKey(LocalCivil(zone, at));
  }

  lemma BaseOfTime(date: string, time: string)
    requires IsDateKey(date) && IsClockTime(time) && ParseKey(date).year >= 100
    ensures BaseUtc(date, time) == DayFromCivil(ParseKey(date)) * MS_PER_DAY + MinutesOf(time) * MS_PER_MINUTE
    ensures MinutesOf(time) >= 0
  {
  }

  /** On a day without a transition, an instant is judged by what the wall clock reads there. */
  lemma SteadyDayByWallClock(zone: Zone, m: int, latest: int, at: int, w: Window)
    requires Bounded(zone, m) && m <= 1440 && SteadyDay(zone, m, latest, at)
    requires LocalCivil(zone, at).year >= 1000
    requires WellFormed(w) && !IsShut(Some(w)) && TimesUpTo(w, latest)
    ensures Readable(Some(w), DateKey(zone, at))
    ensures EvaluateAtInstant(at, zone, Some(w), DateKey(zone, at)).reason
         == WallClockReason(w, LocalMs(zone, at) % MS_PER_DAY)
  {
    hide ToUtc, DateKey, MinutesOf, IsDateKey, IsClockTime, LocalMs;
    TimeOnSteadyDay(zone, m, latest, at, w.openTime);
    TimeOnSteadyDay(zone, m, latest, at, w.closeTime);
    if w.breakStart != "" { TimeOnSteadyDay(zone, m, latest, at, w.breakStart); }
    if w.breakEnd != "" { TimeOnSteadyDay(zone, m, latest, at, w.breakEnd); }
  }

  /** A time of the date that the clocks show exactly once. */
  ghost predicate ShownOnce(zone: Zone, date: string, time: string)
    requires IsDateKey(date) && IsClockTime(time)
  {
    exists s :: OccursOnceAt(zone, BaseUtc(date, time), s)
  }

  ghost predicate TimesShownOnce(zone: Zone, date: string, w: Window)
    requires IsDateKey(date) && WellFormed(w) && w.openTime != "" && w.closeTime != ""
  {
    && ShownOnce(zone, date, w.openTime) && ShownOnce(zone, date, w.closeTime)
    && (w.breakStart != "" ==> ShownOnce(zone, date, w.breakStart))
    && (w.breakEnd != "" ==> ShownOnce(zone, date, w.breakEnd))
  }

  /** Around a time shown once, being past its instant is reading past it on the wall clock. */
  lemma PastIsReadPast(zone: Zone, m: int, date: string, time: string, at: int)
    requires WellSpaced(zone, m) && m <= 1440 && IsDayKey(date) && IsClockTime(time) && ShownOnce(zone, date, time)
    ensures at >= ToUtc(date, time, zone)
       <==> LocalMs(zone, at) - DayOf(date) * MS_PER_DAY >= MinutesOf(time) * MS_PER_MINUTE
  {
    hide ToUtc, BaseUtc, IsClockTime, MinutesOf, IsDateKey, ParseKey, IsCivil, Separated, DayFromCivil, LocalMs;
    var base := BaseUtc(date, time);
    var s :| OccursOnceAt(zone, base, s);
    assert LocalMs(zone, s) == base;
    SolvesBase(date, time, zone, m);
    SolveExact(zone, m, base);
    assert ToUtc(date, time, zone) == s;
    OnceSplitsTimeline(zone, m, base, s, at);
    BaseOfTime(date, time);
    assert base == DayOf(date) * MS_PER_DAY + MinutesOf(time) * MS_PER_MINUTE;
  }

  /**
   * On any date, with or without a transition, whose opening, closing and break times the clocks show exactly once,
   * every instant is judged by what the wall clock reads there, counted from the midnight of the date.
   */
  lemma ShownOnceByWallClock(zone: Zone, m: int, at: int, date: string, w: Window)
    requires WellSpaced(zone, m) && m <= 1440 && IsDayKey(date)
    requires WellFormed(w) && !IsShut(Some(w)) && TimesShownOnce(zone, date, w)
    ensures Readable(Some(w), date)
    ensures EvaluateAtInstant(at, zone, Some(w), date).reason
         == WallClockReason(w, LocalMs(zone, at) - DayOf(date) * MS_PER_DAY)
  {
    hide ToUtc, DayOf, MinutesOf, IsDateKey, IsClockTime, LocalMs, ShownOnce, ParseKey, IsCivil, WellSpaced;
    PastIsReadPast(zone, m, date, w.openTime, at);
    PastIsReadPast(zone, m, date, w.closeTime, at);
    if w.breakStart != "" { PastIsReadPast(zone, m, date, w.breakStart, at); }
    if w.breakEnd != "" { PastIsReadPast(zone, m, date, w.breakEnd, at); }
  }

  // ----- The answers of the evaluators -----

  /** A day is closed, for both evaluators, exactly when no hours are set, they are marked closed, or a time is missing. */
  lemma ClosedDayIff(at: int, minutes: int, zone: Zone, window: Option<Window>, localDate: string)
    requires Readable(window, localDate)
    ensures EvaluateAtInstant(at, zone, window, localDate).reason == ClosedDay
       <==> window.None? || window.value.isClosed || window.value.openTime == "" || window.value.closeTime == ""
    ensures EvaluateSlot(at, minutes, zone, window, localDate) == ClosedDay
       <==> window.None? || window.value.isClosed || window.value.openTime == "" || window.value.closeTime == ""
  {
    hide ToUtc, IsDateKey, WellFormed;
  }

  /** What comes with the reason: open says the same, the date is passed on, and hours and bounds come unless it is closed. */
  lemma EvaluationReports(at: int, zone: Zone, window: Option<Window>, localDate: string)
    requires Readable(window, localDate)
    ensures var e := EvaluateAtInstant(at, zone, window, localDate);
      && (e.isOpen <==> e.reason == Open) && e.localDate == localDate
      && (if e.reason == ClosedDay then e.window.None? && e.bounds.None? else e.window == window && e.window.Some? && e.bounds.Some?)
      && (e.reason != ClosedDay ==>
            var w, b := e.window.value, e.bounds.value;
            && IsClockTime(w.openTime) && b.openAt == ToUtc(localDate, w.openTime, zone)
            && IsClockTime(w.closeTime) && b.closeAt == ToUtc(localDate, w.closeTime, zone)
            && (b.breakStart.Some? <==> w.breakStart != "") && (b.breakEnd.Some? <==> w.breakEnd != "")
            && (b.breakStart.Some? ==> IsClockTime(w.breakStart) && b.breakStart.value == ToUtc(localDate, w.breakStart, zone))
            && (b.breakEnd.Some? ==> IsClockTime(w.breakEnd) && b.breakEnd.value == ToUtc(localDate, w.breakEnd, zone)))
  {
    hide ToUtc, IsDateKey, IsClockTime;
  }

  /**
   * A slot on a date whose times the clocks show once is judged by the wall clock at its first and its last instant:
   * outside the hours if it starts before opening or runs past closing, in the break if it reaches into it.
   */
  lemma SlotByWallClock(zone: Zone, m: int, start: int, minutes: int, date: string, w: Window)
    requires WellSpaced(zone, m) && m <= 1440 && IsDayKey(date) && minutes > 0
    requires WellFormed(w) && !w.isClosed && w.openTime != "" && w.closeTime != "" && TimesShownOnce(zone, date, w)
    ensures Readable(Some(w), date)
    ensures var midnight := DayOf(date) * MS_PER_DAY;
      var first, last := LocalMs(zone, start) - midnight, LocalMs(zone, start + minutes * MS_PER_MINUTE - 1) - midnight;
      EvaluateSlot(start, minutes, zone, Some(w), date)
      == if first < MinutesOf(w.openTime) * MS_PER_MINUTE || last >= MinutesOf(w.closeTime) * MS_PER_MINUTE then OutsideHours
         else if w.breakStart != "" && w.breakEnd != ""
           && first < MinutesOf(w.breakEnd) * MS_PER_MINUTE && last >= MinutesOf(w.breakStart) * MS_PER_MINUTE then Break
         else Open
  {
    hide ToUtc, DayOf, MinutesOf, IsDateKey, IsClockTime, LocalMs, ShownOnce, ParseKey, IsCivil, WellSpaced;
    var last := start + minutes * MS_PER_MINUTE - 1;
    PastIsReadPast(zone, m, date, w.openTime, start);
    PastIsReadPast(zone, m, date, w.closeTime, last);
    if w.breakStart != "" { PastIsReadPast(zone, m, date, w.breakStart, last); }
    if w.breakEnd != "" { PastIsReadPast(zone, m, date, w.breakEnd, start); }
  }

  /** Minutes that are missing are 0, and what follows the minutes is ignored. */
  lemma ClockDefaults(hours: string, minutes: string, rest: string)
    requires AllDigits(hours) && AllDigits(minutes)
    ensures IsClockTime(hours) && MinutesOf(hours) == 60 * Parse(hours)
    ensures IsClockTime(hours + ":" + minutes) && MinutesOf(hours + ":" + minutes) == 60 * Parse(hours) + Parse(minutes)
    ensures IsClockTime(hours + ":" + minutes + ":" + rest)
    ensures MinutesOf(hours + ":" + minutes + ":" + rest) == 60 * Parse(hours) + Parse(minutes)
  {
    SplitNoSeparator(hours, ':');
    SplitNoSeparator(minutes, ':');
    SplitFirst(hours, minutes, ':');
    SplitFirst(minutes, rest, ':');
    SplitFirst(hours, minutes + ":" + rest, ':');
    assert hours + ":" + minutes + ":" + rest == hours + ":" + (minutes + ":" + rest);
  }
}
