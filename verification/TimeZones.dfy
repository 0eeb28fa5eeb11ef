/** Time zones as step functions from instants to whole-minute offsets, and the local-to-UTC solver. */
module TimeZones {
  import opened Calendar

  /** Offset from UTC, in minutes, at each instant (in milliseconds). */
  type Zone = int -> int

  function OffsetMs(zone: Zone, t: int): int {
    zone(t) * MS_PER_MINUTE
  }

  /** The wall-clock reading at instant `t`, written as if it were UTC. */
  function LocalMs(zone: Zone, t: int): int {
    t + OffsetMs(zone, t)
  }

  /** The offset changes at instant `j`. */
  predicate IsJump(zone: Zone, j: int) {
    zone(j) != zone(j - 1)
  }

  ghost predicate Bounded(zone: Zone, m: int) {
    forall t :: -m <= zone(t) <= m
  }

  /** Any two transitions are at least `gap` milliseconds apart. */
  ghost predicate Separated(zone: Zone, gap: int) {
    forall i, j :: i < j && IsJump(zone, i) && IsJump(zone, j) ==> j - i >= gap
  }

  /** Offsets of at most `m` minutes, with transitions at least twice that far apart. */
  ghost predicate WellSpaced(zone: Zone, m: int) {
    Bounded(zone, m) && Separated(zone, 2 * m * MS_PER_MINUTE)
  }

  ghost predicate LocalTimeExists(zone: Zone, base: int) {
    exists t :: LocalMs(zone, t) == base
  }

  /** The two rounds of zonedDateTimeToUtc. */
  function Solve(zone: Zone, base: int): int {
    base - OffsetMs(zone, base - OffsetMs(zone, base))
  }

  /** Two different offsets have a transition between them. */
  lemma {:induction false} FindJump(zone: Zone, x: int, y: int) returns (j: int)
    requires x < y && zone(x) != zone(y)
    ensures x < j <= y && IsJump(zone, j)
    ensures forall t :: x <= t < j ==> zone(t) == zone(x)
    decreases y - x
  {
    if zone(x + 1) != zone(x) {
      j := x + 1;
    } else {
      j := FindJump(zone, x + 1, y);
    }
  }

  lemma {:induction false} NoJumpNoChange(zone: Zone, x: int, y: int)
    requires x <= y
    requires forall j :: x < j <= y ==> !IsJump(zone, j)
    ensures forall t :: x <= t <= y ==> zone(t) == zone(x)
    decreases y - x
  {
    if x < y {
      assert !IsJump(zone, x + 1);
      NoJumpNoChange(zone, x + 1, y);
    }
  }

  /** In a window shorter than the spacing the zone has one transition: one value before, one after. */
  lemma OneJump(zone: Zone, gap: int, lo: int, hi: int, x: int, y: int) returns (j: int)
    requires Separated(zone, gap) && lo <= x < y <= hi <= lo + gap
    requires zone(x) != zone(y)
    ensures x < j <= y && IsJump(zone, j)
    ensures forall t :: lo <= t < j ==> zone(t) == zone(x)
    ensures forall t :: j <= t <= hi ==> zone(t) == zone(y)
  {
    j := FindJump(zone, x, y);
    forall k | lo < k < j ensures !IsJump(zone, k) {
      assert IsJump(zone, k) ==> j - k >= gap;
    }
    forall k | j < k <= hi ensures !IsJump(zone, k) {
      assert IsJump(zone, k) ==> k - j >= gap;
    }
    NoJumpNoChange(zone, lo, j - 1);
    NoJumpNoChange(zone, j, hi);
  }

  /** At most two offsets occur in such a window. */
  lemma TwoValues(zone: Zone, gap: int, lo: int, hi: int, x: int, y: int, t: int)
    requires Separated(zone, gap) && hi <= lo + gap
    requires lo <= x <= hi && lo <= y <= hi && lo <= t <= hi
    requires zone(x) != zone(y)
    ensures zone(t) == zone(x) || zone(t) == zone(y)
  {
    if x < y {
      var j := OneJump(zone, gap, lo, hi, x, y);
    } else {
      var j := OneJump(zone, gap, lo, hi, y, x);
    }
  }

  lemma Near(zone: Zone, m: int, base: int, t: int)
    requires Bounded(zone, m)
    ensures -m * MS_PER_MINUTE <= OffsetMs(zone, t) <= m * MS_PER_MINUTE
    ensures LocalMs(zone, t) == base ==> base - m * MS_PER_MINUTE <= t <= base + m * MS_PER_MINUTE
  {
    assert -m <= zone(t) <= m;
  }

  /** The candidates of the solver lie in one window of twice the maximum offset. */
  lemma Candidates(zone: Zone, m: int, base: int)
    requires Bounded(zone, m)
    ensures m >= 0
    ensures base - m * MS_PER_MINUTE <= base - OffsetMs(zone, base) <= base + m * MS_PER_MINUTE
    ensures base - m * MS_PER_MINUTE <= Solve(zone, base) <= base + m * MS_PER_MINUTE
  {
    Near(zone, m, base, base);
    Near(zone, m, base, base - OffsetMs(zone, base));
  }

  /** Two rounds are exact on every wall-clock reading that exists, and only there. */
  lemma SolveExact(zone: Zone, m: int, base: int)
    requires WellSpaced(zone, m)
    ensures LocalMs(zone, Solve(zone, base)) == base <==> LocalTimeExists(zone, base)
  {
    var w := m * MS_PER_MINUTE;
    var c1 := base - OffsetMs(zone, base);
    Candidates(zone, m, base);
    if t :| LocalMs(zone, t) == base {
      Near(zone, m, base, t);
      if zone(base) != zone(c1) {
        TwoValues(zone, 2 * w, base - w, base + w, base, c1, t);
      }
    }
  }

  /** The second guess is right just when the offset no longer changes from the first to it. */
  lemma SettledIsExact(zone: Zone, base: int)
    ensures LocalMs(zone, Solve(zone, base)) == base <==> zone(Solve(zone, base)) == zone(base - OffsetMs(zone, base))
  {
  }

  /** In the zone, the two rounds are exact on every wall-clock reading that exists, and only there. */
  ghost predicate SolvesAll(zone: Zone) {
    forall base :: LocalMs(zone, Solve(zone, base)) == base <==> LocalTimeExists(zone, base)
  }

  /** Two transitions that the spacing of `m` minutes misses by one millisecond. */
  function TightZone(m: int): Zone {
    t => if t < 1 - m * MS_PER_MINUTE then 0 else if t < m * MS_PER_MINUTE then m else -m
  }

  /** The two rounds look at `m`, then at 0, and never at the offset that holds where the clocks show the reading. */
  lemma TightZoneFails(m: int, gap: int)
    requires m > 0 && gap < 2 * m * MS_PER_MINUTE
    ensures Bounded(TightZone(m), m) && Separated(TightZone(m), gap) && !SolvesAll(TightZone(m))
  {
    var zone, w := TightZone(m), m * MS_PER_MINUTE;
    forall i, j | i < j && IsJump(zone, i) && IsJump(zone, j) ensures j - i >= gap {
      assert i == 1 - w && j == w;
    }
    assert LocalMs(zone, w) == 0;
    SettledIsExact(zone, 0);
    assert LocalTimeExists(zone, 0);
    assert LocalMs(zone, Solve(zone, 0)) != 0;
  }

  /** The spacing is the right one: a smaller one lets in a zone that fails, a larger one none. */
  lemma SpacingIsExact(m: int, gap: int)
    requires m > 0
    ensures (forall zone :: Bounded(zone, m) && Separated(zone, gap) ==> SolvesAll(zone)) <==> gap >= 2 * m * MS_PER_MINUTE
  {
    if gap >= 2 * m * MS_PER_MINUTE {
      forall zone, base | Bounded(zone, m) && Separated(zone, gap)
        ensures LocalMs(zone, Solve(zone, base)) == base <==> LocalTimeExists(zone, base)
      {
        SeparatedLess(zone, gap, 2 * m * MS_PER_MINUTE);
        SolveExact(zone, m, base);
      }
    } else {
      TightZoneFails(m, gap);
    }
  }

  lemma SeparatedLess(zone: Zone, gap: int, less: int)
    requires Separated(zone, gap) && less <= gap
    ensures Separated(zone, less)
  {
    forall i, j | i < j && IsJump(zone, i) && IsJump(zone, j) ensures j - i >= less {
      assert j - i >= gap;
    }
  }

  /** The transition around `base`: offset `before` up to `at`, offset `after` from it on. */
  datatype Transition = Transition(at: int, before: int, after: int)

  ghost predicate Describes(zone: Zone, w: int, base: int, j: Transition) {
    && base - w < j.at <= base + w && j.before != j.after
    && (forall t :: base - w <= t < j.at ==> zone(t) == j.before)
    && (forall t :: j.at <= t <= base + w ==> zone(t) == j.after)
  }

  /**
   * In a gap the clocks go forward over `base`, and the result reads wrong by exactly the size of the jump:
   * late when the transition instant is not after `base`, early otherwise.
   */
  lemma GapMissesByTheJump(zone: Zone, m: int, base: int) returns (j: Transition)
    requires WellSpaced(zone, m)
    requires !LocalTimeExists(zone, base)
    ensures Describes(zone, m * MS_PER_MINUTE, base, j)
    ensures j.at + j.before * MS_PER_MINUTE <= base < j.at + j.after * MS_PER_MINUTE
    ensures LocalMs(zone, Solve(zone, base)) - base
         == (if j.at <= base then 1 else -1) * (j.after - j.before) * MS_PER_MINUTE
  {
    var w := m * MS_PER_MINUTE;
    var c1 := base - OffsetMs(zone, base);
    Candidates(zone, m, base);
    assert LocalMs(zone, c1) != base && LocalMs(zone, Solve(zone, base)) != base;
    var at;
    if base < c1 {
      at := OneJump(zone, 2 * w, base - w, base + w, base, c1);
      j := Transition(at, zone(base), zone(c1));
    } else {
      at := OneJump(zone, 2 * w, base - w, base + w, c1, base);
      j := Transition(at, zone(c1), zone(base));
    }
    assert LocalMs(zone, base - j.before * MS_PER_MINUTE) != base;
    assert LocalMs(zone, base - j.after * MS_PER_MINUTE) != base;
    Near(zone, m, base, at);
    Near(zone, m, base, at - 1);
  }

  /** Conversely, no instant reads as a time the clocks skipped. */
  lemma GapHasNoInstant(zone: Zone, m: int, base: int, j: Transition)
    requires Bounded(zone, m) && Describes(zone, m * MS_PER_MINUTE, base, j)
    requires j.at + j.before * MS_PER_MINUTE <= base < j.at + j.after * MS_PER_MINUTE
    ensures !LocalTimeExists(zone, base)
  {
    if t :| LocalMs(zone, t) == base {
      Near(zone, m, base, t);
    }
  }

  /** Which of the two instants a repeated reading resolves to: the first exactly when the transition is after `base`. */
  lemma FoldChoice(zone: Zone, m: int, base: int, j: Transition)
    requires WellSpaced(zone, m) && Describes(zone, m * MS_PER_MINUTE, base, j)
    requires j.at + j.after * MS_PER_MINUTE <= base < j.at + j.before * MS_PER_MINUTE
    ensures LocalMs(zone, base - j.before * MS_PER_MINUTE) == base == LocalMs(zone, base - j.after * MS_PER_MINUTE)
    ensures Solve(zone, base) == base - (if base < j.at then j.before else j.after) * MS_PER_MINUTE
  {
    var w := m * MS_PER_MINUTE;
    Near(zone, m, base, j.at - 1);
    Near(zone, m, base, j.at);
    assert zone(j.at - 1) == j.before && zone(j.at) == j.after;
    assert zone(base - j.before * MS_PER_MINUTE) == j.before;
    assert zone(base - j.after * MS_PER_MINUTE) == j.after;
  }

  /** Two transitions half an hour apart defeat the two rounds, although the reading exists. */
  lemma CloseTransitionsMislead(zone: Zone)
    requires forall t :: zone(t) == if t < 60 * MS_PER_MINUTE then 0 else if t < 90 * MS_PER_MINUTE then 60 else -30
    ensures LocalTimeExists(zone, 60 * MS_PER_MINUTE)
    ensures LocalMs(zone, Solve(zone, 60 * MS_PER_MINUTE)) != 60 * MS_PER_MINUTE
  {
    assert LocalMs(zone, 90 * MS_PER_MINUTE) == 60 * MS_PER_MINUTE;
  }

  /** A zone given by an initial offset and a table of transitions in time order. */
  datatype Table = Table(initial: int, entries: seq<(int, int)>)

  ghost predicate TableInOrder(table: Table) {
    forall i, j :: 0 <= i < j < |table.entries| ==> table.entries[i].0 < table.entries[j].0
  }

  function TableOffset(table: Table, t: int): int
    decreases |table.entries|
  {
    var n := |table.entries|;
    if n == 0 then table.initial
    else if table.entries[n - 1].0 <= t then table.entries[n - 1].1
    else TableOffset(table.(entries := table.entries[..n - 1]), t)
  }

  /** A jump of a tabled zone happens only at an entry of the table. */
  lemma {:induction false} JumpIsEntry(table: Table, t: int)
    requires TableInOrder(table) && TableOffset(table, t) != TableOffset(table, t - 1)
    ensures exists i :: 0 <= i < |table.entries| && table.entries[i].0 == t
    decreases |table.entries|
  {
    var n := |table.entries|;
    if table.entries[n - 1].0 != t {
      var front := table.(entries := table.entries[..n - 1]);
      JumpIsEntry(front, t);
      var i :| 0 <= i < n - 1 && front.entries[i].0 == t;
      assert table.entries[i].0 == t;
    }
  }

  lemma {:induction false} TableIsBounded(table: Table, m: int, t: int)
    requires -m <= table.initial <= m && forall i :: 0 <= i < |table.entries| ==> -m <= table.entries[i].1 <= m
    ensures -m <= TableOffset(table, t) <= m
    decreases |table.entries|
  {
    var n := |table.entries|;
    if n > 0 && table.entries[n - 1].0 > t {
      TableIsBounded(table.(entries := table.entries[..n - 1]), m, t);
    }
  }

  /** Table entries within the bound and spaced apart give a zone that is well spaced. */
  lemma SpacedTable(table: Table, m: int, zone: Zone)
    requires TableInOrder(table)
    requires -m <= table.initial <= m && forall i :: 0 <= i < |table.entries| ==> -m <= table.entries[i].1 <= m
    requires forall i, j :: 0 <= i < j < |table.entries| ==> table.entries[j].0 - table.entries[i].0 >= 2 * m * MS_PER_MINUTE
    requires forall t :: zone(t) == TableOffset(table, t)
    ensures WellSpaced(zone, m)
  {
    hide TableInOrder;
    forall t ensures -m <= zone(t) <= m {
      TableIsBounded(table, m, t);
    }
    SpacedEntries(table, 2 * m * MS_PER_MINUTE, zone);
  }

  lemma SpacedEntries(table: Table, gap: int, zone: Zone)
    requires TableInOrder(table)
    requires forall i, j :: 0 <= i < j < |table.entries| ==> table.entries[j].0 - table.entries[i].0 >= gap
    requires forall t :: zone(t) == TableOffset(table, t)
    ensures Separated(zone, gap)
  {
    forall i, j | i < j && IsJump(zone, i) && IsJump(zone, j) ensures j - i >= gap {
      JumpIsEntry(table, i);
      JumpIsEntry(table, j);
    }
  }

  /** The table gives the initial offset before its first entry, and after that of the last entry not later. */
  lemma {:induction false} TableReads(table: Table, k: nat, t: int)
    requires TableInOrder(table) && k <= |table.entries|
    requires k > 0 ==> table.entries[k - 1].0 <= t
    requires k < |table.entries| ==> t < table.entries[k].0
    ensures TableOffset(table, t) == if k == 0 then table.initial else table.entries[k - 1].1
    decreases |table.entries|
  {
    var n := |table.entries|;
    if k < n {
      var front := table.(entries := table.entries[..n - 1]);
      assert table.entries[k].0 <= table.entries[n - 1].0;
      TableReads(front, k, t);
    }
  }
}
