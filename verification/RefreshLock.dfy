/** The refresh lock that browser tabs share through localStorage: a TTL, polling waiters, unconditional release. */
module RefreshLock {

  const LOCK_TTL_MS := 20_000
  const MAX_WAIT_MS := 15_000
  const POLL_MS := 150

  /** The stored item: missing, not a lock record, or a record with its expiry. */
  datatype Cell = Absent | Unreadable | Until(until: int)

  /** How localStorage behaves at an access: it may refuse writes, or everything. */
  datatype Storage = Works | ReadOnly | Broken

  predicate Held(cell: Cell, now: int) {
    cell.Until? && cell.until > now
  }

  /** tryAcquireRefreshLock: whether the caller goes ahead, and the item it leaves behind. */
  function TryAcquire(cell: Cell, now: int, storage: Storage): (bool, Cell) {
    if storage != Broken && Held(cell, now) then (false, cell)
    else (true, if storage == Works then Until(now + LOCK_TTL_MS) else cell)
  }

  /** releaseRefreshLock: removes whatever lock is present. */
  function Release(cell: Cell, storage: Storage): Cell {
    if storage == Works then Absent else cell
  }

  class LockStorage {
    var item: Cell

    constructor ()
      ensures item == Absent
    {
      item := Absent;
    }

    method TryAcquireRefreshLock(now: int, storage: Storage) returns (acquired: bool)
      modifies this
      ensures (acquired, item) == TryAcquire(old(item), now, storage)
    {
      var lockedUntil := item;
      if storage == Broken {
        lockedUntil := Absent;
      }
      if lockedUntil.Until? && lockedUntil.until > now {
        return false;
      }
      if storage == Works {
        item := Until(now + LOCK_TTL_MS);
      }
      return true;
    }

    method ReleaseRefreshLock(storage: Storage)
      modifies this
      ensures item == Release(old(item), storage)
    {
      if storage == Works {
        item := Absent;
      }
    }
  }

  /**
   * waitForPeerRefresh: `clock(k)` and `recheck(k)` are the k-th readings of the time in the loop guard and in the
   * body, `cells(k)` the item read in between. It sleeps only while the lock is held and time is left.
   */
  method WaitForPeerRefresh(start: int, clock: nat -> int, cells: nat -> Cell, recheck: nat -> int) returns (polls: nat)
    requires start <= clock(0)
    requires forall k: nat :: clock(k) <= recheck(k) && recheck(k) + POLL_MS <= clock(k + 1)
    ensures polls <= MAX_WAIT_MS / POLL_MS
    ensures clock(polls) >= start + MAX_WAIT_MS || !Held(cells(polls), recheck(polls))
    ensures forall k :: 0 <= k < polls ==> clock(k) < start + MAX_WAIT_MS && Held(cells(k), recheck(k))
  {
    var deadline := start + MAX_WAIT_MS;
    polls := 0;
    while clock(polls) < deadline
      invariant start + POLL_MS * polls <= clock(polls)
      invariant polls > 0 ==> clock(polls - 1) < deadline && start + POLL_MS * (polls - 1) <= clock(polls - 1)
      invariant forall k :: 0 <= k < polls ==> clock(k) < deadline && Held(cells(k), recheck(k))
      decreases deadline - clock(polls)
    {
      if !Held(cells(polls), recheck(polls)) {
        return;
      }
      polls := polls + 1;
    }
  }

  // ----- Any number of tabs -----

  type Tab = nat

  datatype Phase = Idle | Refreshing(since: int) | Waiting(deadline: int, wakeAt: int, polls: nat) | Syncing

  datatype State = State(now: int, item: Cell, tabs: map<Tab, Phase>)

  datatype Event =
    | Tick(ms: nat)
    | Start(tab: Tab, storage: Storage)
    | Poll(tab: Tab)
    | Finish(tab: Tab, storage: Storage)
    | SyncDone(tab: Tab)
    | Crash(tab: Tab)

  function PhaseOf(s: State, tab: Tab): Phase {
    if tab in s.tabs then s.tabs[tab] else Idle
  }

  function Move(s: State, tab: Tab, phase: Phase): State {
    s.(tabs := s.tabs[tab := phase])
  }

  /** coordinateRefresh starts only in a tab that is not already refreshing: the tab's own single flight. */
  predicate Enabled(s: State, e: Event) {
    match e
    case Tick(_) => true
    case Start(tab, _) => PhaseOf(s, tab).Idle?
    case Poll(tab) => PhaseOf(s, tab).Waiting? && s.now >= PhaseOf(s, tab).wakeAt
    case Finish(tab, _) => PhaseOf(s, tab).Refreshing?
    case SyncDone(tab) => PhaseOf(s, tab).Syncing?
    case Crash(_) => true
  }

  function Step(s: State, e: Event): State
    requires Enabled(s, e)
  {
    match e
    case Tick(ms) => s.(now := s.now + ms)
    case Start(tab, storage) =>
      var (acquired, item) := TryAcquire(s.item, s.now, storage);
      if acquired then Move(s.(item := item), tab, Refreshing(s.now))
      else Move(s, tab, Waiting(s.now + MAX_WAIT_MS, s.now, 0))
    case Poll(tab) =>
      var w := PhaseOf(s, tab);
      if s.now >= w.deadline || !Held(s.item, s.now) then Move(s, tab, Syncing)
      else Move(s, tab, Waiting(w.deadline, s.now + POLL_MS, w.polls + 1))
    case Finish(tab, storage) => Move(s.(item := Release(s.item, storage)), tab, Idle)
    case SyncDone(tab) => Move(s, tab, Idle)
    case Crash(tab) => Move(s, tab, Idle)
  }

  function Run(s: State, events: seq<Event>): State {
    if events == [] then s
    else
      var before := Run(s, events[..|events| - 1]);
      var e := events[|events| - 1];
      if Enabled(before, e) then Step(before, e) else before
  }

  /** Before any tab acts, a lock left over from earlier lies at most one TTL ahead. */
  predicate Opening(s: State) {
    s.tabs == map[] && (s.item.Until? ==> s.item.until <= s.now + LOCK_TTL_MS)
  }

  /** No holder has held on for its TTL. */
  predicate WithinTtl(s: State) {
    forall tab :: tab in s.tabs && s.tabs[tab].Refreshing? ==> s.now < s.tabs[tab].since + LOCK_TTL_MS
  }

  /** Every holder finishes, or crashes, strictly before its TTL, and localStorage works. */
  predicate Prompt(s: State, events: seq<Event>) {
    && (forall k :: 0 <= k <= |events| ==> WithinTtl(Run(s, events[..k])))
    && (forall k :: 0 <= k < |events| && events[k].Start? ==> events[k].storage == Works)
  }

  /** A holder's own lock is the stored one, and holders are unique. */
  predicate HolderInv(s: State) {
    && (forall tab :: tab in s.tabs && s.tabs[tab].Refreshing? ==> s.item == Until(s.tabs[tab].since + LOCK_TTL_MS))
    && (forall a, b :: a in s.tabs && b in s.tabs && s.tabs[a].Refreshing? && s.tabs[b].Refreshing? ==> a == b)
  }

  lemma StepKeepsHolder(s: State, e: Event)
    requires HolderInv(s) && WithinTtl(s) && Enabled(s, e) && (e.Start? ==> e.storage == Works)
    ensures HolderInv(Step(s, e))
  {
  }

  lemma PromptPrefix(s: State, events: seq<Event>)
    requires Prompt(s, events) && events != []
    ensures Prompt(s, events[..|events| - 1]) && WithinTtl(Run(s, events[..|events| - 1]))
  {
    var front := events[..|events| - 1];
    forall k | 0 <= k <= |front| ensures WithinTtl(Run(s, front[..k])) {
      assert front[..k] == events[..k];
    }
    assert front[..|front|] == front;
  }

  /** Mutual exclusion: if holders are prompt, at most one tab refreshes, and the stored expiry is that tab's own. */
  lemma {:induction false} MutualExclusion(s: State, events: seq<Event>)
    requires Opening(s) && Prompt(s, events)
    ensures HolderInv(Run(s, events))
  {
    hide HolderInv, WithinTtl, Prompt, Step;
    if events == [] {
      OpeningHasNoHolder(s);
    } else {
      var front, e := events[..|events| - 1], events[|events| - 1];
      PromptPrefix(s, events);
      MutualExclusion(s, front);
      LastIsSafe(s, events);
      if Enabled(Run(s, front), e) {
        StepKeepsHolder(Run(s, front), e);
      }
    }
  }

  lemma OpeningHasNoHolder(s: State)
    requires Opening(s)
    ensures HolderInv(s)
  {
  }

  lemma LastIsSafe(s: State, events: seq<Event>)
    requires Prompt(s, events) && events != []
    ensures events[|events| - 1].Start? ==> events[|events| - 1].storage == Works
  {
  }

  /** The promptness is needed: from the instant a holder overruns, any idle tab gets in beside it. */
  lemma OverrunAdmitsASecond(s: State, a: Tab, b: Tab)
    requires HolderInv(s) && a in s.tabs && s.tabs[a].Refreshing? && PhaseOf(s, b).Idle?
    ensures Enabled(s, Start(b, Works))
    ensures PhaseOf(Step(s, Start(b, Works)), b).Refreshing? <==> s.now >= s.tabs[a].since + LOCK_TTL_MS
    ensures PhaseOf(Step(s, Start(b, Works)), a).Refreshing?
  {
  }

  /** The late holder's release then removes the second holder's lock, and a third tab joins the second. */
  lemma LateReleaseAdmitsAThird(s: State, a: Tab, b: Tab, c: Tab)
    requires a in s.tabs && s.tabs[a].Refreshing? && b in s.tabs && s.tabs[b].Refreshing?
    requires a != b && c != b && c != a && PhaseOf(s, c).Idle?
    ensures Enabled(s, Finish(a, Works)) && Enabled(Step(s, Finish(a, Works)), Start(c, Works))
    ensures var t := Step(Step(s, Finish(a, Works)), Start(c, Works));
      PhaseOf(t, b).Refreshing? && PhaseOf(t, c).Refreshing?
  {
  }

  /**
   * With the lock free, the second of two tabs to start gets in beside the first
   * exactly if the first could not write its lock or the second cannot read it.
   */
  lemma UnwritableStorageExcludesNobody(s: State, a: Tab, b: Tab, first: Storage, second: Storage)
    requires PhaseOf(s, a).Idle? && PhaseOf(s, b).Idle? && a != b && !Held(s.item, s.now)
    ensures var t := Step(Step(s, Start(a, first)), Start(b, second));
      PhaseOf(t, a).Refreshing? && (PhaseOf(t, b).Refreshing? <==> first != Works || second == Broken)
  {
  }

  lemma RunLast(s: State, front: seq<Event>, e: Event)
    ensures Run(s, front + [e]) == if Enabled(Run(s, front), e) then Step(Run(s, front), e) else Run(s, front)
  {
    assert (front + [e])[..|front|] == front;
  }

  /** From a free lock: a holder that overruns is joined by a second tab, and its late release lets in a third. */
  lemma OverrunRun(s: State, a: Tab, b: Tab, c: Tab)
    requires s.tabs == map[] && s.item == Absent && a != b && b != c && a != c
    ensures Opening(s)
    ensures var t := Run(s, [Start(a, Works), Tick(LOCK_TTL_MS), Start(b, Works)]);
      PhaseOf(t, a).Refreshing? && PhaseOf(t, b).Refreshing?
    ensures var t := Run(s, [Start(a, Works), Tick(LOCK_TTL_MS), Start(b, Works), Finish(a, Works), Start(c, Works)]);
      PhaseOf(t, b).Refreshing? && PhaseOf(t, c).Refreshing?
  {
    var e1, e2, e3, e4, e5 := Start(a, Works), Tick(LOCK_TTL_MS), Start(b, Works), Finish(a, Works), Start(c, Works);
    assert [] + [e1] == [e1] && [e1] + [e2] == [e1, e2] && [e1, e2] + [e3] == [e1, e2, e3];
    assert [e1, e2, e3] + [e4] == [e1, e2, e3, e4] && [e1, e2, e3, e4] + [e5] == [e1, e2, e3, e4, e5];
    RunLast(s, [], e1);
    RunLast(s, [e1], e2);
    RunLast(s, [e1, e2], e3);
    RunLast(s, [e1, e2, e3], e4);
    RunLast(s, [e1, e2, e3, e4], e5);
  }

  /**
   * The exclusion is about lock holders alone. Waiters that leave a freed lock send their own refresh without
   * taking it: any two of them, and a new holder, may be refreshing at the same time.
   */
  lemma WaitersRefreshUnlocked(s: State, a: Tab, b: Tab, c: Tab)
    requires HolderInv(s) && !Held(s.item, s.now) && WithinTtl(s) && a != b && PhaseOf(s, c).Idle?
    requires Enabled(s, Poll(a)) && Enabled(s, Poll(b))
    ensures Enabled(Step(s, Poll(a)), Poll(b)) && Enabled(Step(Step(s, Poll(a)), Poll(b)), Start(c, Works))
    ensures var t := Step(Step(Step(s, Poll(a)), Poll(b)), Start(c, Works));
      PhaseOf(t, a).Syncing? && PhaseOf(t, b).Syncing? && PhaseOf(t, c).Refreshing? && HolderInv(t)
  {
    hide HolderInv, WithinTtl;
    var s1 := Step(s, Poll(a));
    var s2 := Step(s1, Poll(b));
    StepKeepsHolder(s, Poll(a));
    PollKeepsTtl(s, a);
    StepKeepsHolder(s1, Poll(b));
    PollKeepsTtl(s1, b);
    StepKeepsHolder(s2, Start(c, Works));
  }

  lemma PollKeepsTtl(s: State, tab: Tab)
    requires WithinTtl(s) && Enabled(s, Poll(tab))
    ensures WithinTtl(Step(s, Poll(tab)))
  {
  }

  // ----- Waiters and dead tabs -----

  predicate WaiterInv(s: State) {
    && (s.item.Until? ==> s.item.until <= s.now + LOCK_TTL_MS)
    && forall tab :: tab in s.tabs && s.tabs[tab].Waiting? ==>
         var w := s.tabs[tab];
         && w.deadline - MAX_WAIT_MS + POLL_MS * w.polls <= w.wakeAt
         && (w.polls > 0 ==> w.wakeAt - POLL_MS < w.deadline)
         && w.deadline <= s.now + MAX_WAIT_MS
  }

  lemma StepKeepsWaiters(s: State, e: Event)
    requires WaiterInv(s) && Enabled(s, e)
    ensures WaiterInv(Step(s, e))
  {
  }

  lemma {:induction false} RunKeepsWaiters(s: State, events: seq<Event>)
    requires Opening(s)
    ensures WaiterInv(Run(s, events))
  {
    hide WaiterInv, Step;
    if events == [] {
      OpeningHasNoWaiter(s);
    } else {
      var front, e := events[..|events| - 1], events[|events| - 1];
      RunKeepsWaiters(s, front);
      if Enabled(Run(s, front), e) {
        StepKeepsWaiters(Run(s, front), e);
      }
    }
  }

  lemma OpeningHasNoWaiter(s: State)
    requires Opening(s)
    ensures WaiterInv(s)
  {
  }

  /** In every run a waiter has slept at most 100 times, and leaves only a free or expired lock, or past its deadline. */
  lemma WaitIsBounded(s: State, events: seq<Event>, tab: Tab)
    requires Opening(s) && PhaseOf(Run(s, events), tab).Waiting?
    ensures var t := Run(s, events);
      && PhaseOf(t, tab).polls <= MAX_WAIT_MS / POLL_MS
      && PhaseOf(t, tab).deadline <= t.now + MAX_WAIT_MS
      && forall e :: Enabled(t, e) && e != Crash(tab) && !PhaseOf(Step(t, e), tab).Waiting? ==>
           e == Poll(tab) && (!Held(t.item, t.now) || t.now >= PhaseOf(t, tab).deadline)
  {
    RunKeepsWaiters(s, events);
  }

  /** Whatever happened, once a TTL has passed an idle tab acquires the lock: a dead tab blocks no longer than that. */
  lemma DeadLockExpires(s: State, events: seq<Event>, ms: nat, tab: Tab)
    requires Opening(s) && ms >= LOCK_TTL_MS && PhaseOf(Run(s, events), tab).Idle?
    ensures var t := Step(Run(s, events), Tick(ms));
      Enabled(t, Start(tab, Works)) && PhaseOf(Step(t, Start(tab, Works)), tab).Refreshing?
  {
    RunKeepsWaiters(s, events);
  }

  // ----- The way of a tab -----

  /** A start on a held lock that can be read waits, up to 15 seconds; any other start refreshes, and writes its lock if it can. */
  lemma StartWaitsOrRefreshes(s: State, tab: Tab, storage: Storage)
    requires PhaseOf(s, tab).Idle?
    ensures var t, held := Step(s, Start(tab, storage)), s.item.Until? && s.item.until > s.now && storage != Broken;
      && PhaseOf(t, tab) == (if held then Waiting(s.now + 15_000, s.now, 0) else Refreshing(s.now))
      && t.item == if !held && storage == Works then Until(s.now + 20_000) else s.item
  {
  }

  /** A poll ends the wait when the lock is free or the time is up, and otherwise sleeps 150 milliseconds. */
  lemma PollWaitsOrSyncs(s: State, tab: Tab)
    requires Enabled(s, Poll(tab))
    ensures var w := PhaseOf(s, tab);
      && w.Waiting?
      && PhaseOf(Step(s, Poll(tab)), tab)
      == if s.now < w.deadline && s.item.Until? && s.item.until > s.now then Waiting(w.deadline, s.now + 150, w.polls + 1) else Syncing
  {
  }

  /** A tab comes to sync only out of a wait, by its own poll, with the lock free or the deadline past. */
  lemma SyncsOnlyAfterWaiting(s: State, e: Event, tab: Tab)
    requires Enabled(s, e) && !PhaseOf(s, tab).Syncing? && PhaseOf(Step(s, e), tab).Syncing?
    ensures e == Poll(tab) && PhaseOf(s, tab).Waiting?
    ensures s.item.Absent? || s.item.Unreadable? || s.item.until <= s.now || s.now >= PhaseOf(s, tab).deadline
  {
  }

  /** A finish, whoever's lock is there, leaves no lock; every tab that is done can start again; other tabs stay as they are. */
  lemma DoneTabsStartAgain(s: State, e: Event, tab: Tab)
    requires Enabled(s, e)
    ensures e.Finish? && e.storage == Works ==> Step(s, e).item == Absent
    ensures (e.Finish? || e.SyncDone? || e.Crash?) && e.tab == tab ==> PhaseOf(Step(s, e), tab).Idle?
    ensures e.Tick? || e.tab != tab ==> PhaseOf(Step(s, e), tab) == PhaseOf(s, tab)
    ensures e.Poll? || e.SyncDone? || e.Crash? || e.Tick? ==> Step(s, e).item == s.item
    ensures Step(s, e).now == s.now + if e.Tick? then e.ms else 0
  {
  }
}
