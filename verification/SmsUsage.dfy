/**
 * The cached SMS usage of one organisation. Worker jobs, delivery callbacks and readers that miss the cache are
 * handlers, interleaved between the row update, the recount and the cache write.
 */
module SmsUsage {
  import opened Options
  import opened SmsCredits

  type NotificationId = nat
  type Handler = nat

  datatype Status = Queued | Sent | Delivered | Failed

  datatype Row = Row(sms: bool, status: Status, messageId: string)

  /** The message status of a delivery callback. */
  datatype Report = ReportSent | ReportDelivered | ReportRead | ReportFailed | ReportUndelivered | ReportOther

  /** Where a handler stands: before its update, before the recount, or holding a count it has yet to write. */
  datatype Pc = Ready | ToCount | ToWrite(count: nat)

  datatype State = State(rows: map<NotificationId, Row>, handlers: map<Handler, Pc>, cached: Option<nat>)

  datatype Event =
    | Create(id: NotificationId, sms: bool)
    | Update(handler: Handler, id: NotificationId, success: bool, messageId: Option<string>)
    | Callback(handler: Handler, id: NotificationId, report: Report)
    | Miss(handler: Handler)
    | Recount(handler: Handler)
    | Write(handler: Handler)
    | Abandon(handler: Handler)

  /** The rows the recount finds: SMS accepted by the provider, with an id that starts with `SM`. */
  predicate IsCounted(row: Row) {
    row.sms && (row.status.Sent? || row.status.Delivered?) && "SM" <= row.messageId
  }

  function CountedRows(s: State): set<NotificationId> {
    set id | id in s.rows && IsCounted(s.rows[id])
  }

  /** The true usage: `prisma.notification.count` at this instant. */
  function BillableCount(s: State): nat {
    |CountedRows(s)|
  }

  function PcOf(s: State, h: Handler): Pc {
    if h in s.handlers then s.handlers[h] else Ready
  }

  /** The status a callback writes, if it writes one. */
  function StatusOf(report: Report): Option<Status> {
    match report
    case ReportDelivered | ReportRead => Some(Delivered)
    case ReportFailed | ReportUndelivered => Some(Failed)
    case ReportSent | ReportOther => None
  }

  /** The callbacks after which the usage is recounted. */
  predicate Syncs(report: Report) {
    report.ReportSent? || report.ReportDelivered? || report.ReportFailed? || report.ReportUndelivered?
  }

  function IdAfter(row: Row, messageId: Option<string>): string {
    if messageId.Some? && messageId.value != "" then messageId.value else row.messageId
  }

  predicate Enabled(s: State, e: Event) {
    match e
    case Create(id, _) => id !in s.rows
    case Update(h, id, _, _) => PcOf(s, h) == Ready && id in s.rows
    case Callback(h, id, _) => PcOf(s, h) == Ready && id in s.rows && s.rows[id].messageId != ""
    case Miss(h) => PcOf(s, h) == Ready && s.cached.None?
    case Recount(h) => PcOf(s, h) == ToCount
    case Write(h) => PcOf(s, h).ToWrite?
    case Abandon(h) => PcOf(s, h) != Ready
  }

  function Step(s: State, e: Event): State
    requires Enabled(s, e)
  {
    match e
    case Create(id, sms) => s.(rows := s.rows[id := Row(sms, Queued, "")])
    case Update(h, id, success, messageId) =>
      var row := s.rows[id];
      s.(rows := s.rows[id := Row(row.sms, if success then Sent else Failed, IdAfter(row, messageId))],
         handlers := s.handlers[h := if row.sms && success && IsBillableId(messageId) then ToCount else Ready])
    case Callback(h, id, report) =>
      var status := StatusOf(report);
      s.(rows := if status.Some? then s.rows[id := s.rows[id].(status := status.value)] else s.rows,
         handlers := s.handlers[h := if Syncs(report) then ToCount else Ready])
    case Miss(h) => s.(handlers := s.handlers[h := ToCount])
    case Recount(h) => s.(handlers := s.handlers[h := ToWrite(BillableCount(s))])
    case Write(h) => s.(cached := Some(PcOf(s, h).count), handlers := s.handlers[h := Ready])
    case Abandon(h) => s.(handlers := s.handlers[h := Ready])
  }

  function Run(s: State, events: seq<Event>): State {
    if events == [] then s
    else
      var before := Run(s, events[..|events| - 1]);
      var e := events[|events| - 1];
      if Enabled(before, e) then Step(before, e) else before
  }

  // ----- What the handlers do -----

  /** A recount holds the number of SMS rows that are sent or delivered and have an id of the provider. */
  lemma RecountsBillable(s: State, h: Handler)
    requires PcOf(s, h) == ToCount
    ensures var billable := set id | id in s.rows && s.rows[id].sms && s.rows[id].status in {Sent, Delivered} && "SM" <= s.rows[id].messageId;
      Step(s, Recount(h)) == s.(handlers := s.handlers[h := ToWrite(|billable|)])
  {
    var billable := set id | id in s.rows && s.rows[id].sms && s.rows[id].status in {Sent, Delivered} && "SM" <= s.rows[id].messageId;
    assert billable == CountedRows(s);
  }

  /** The row a worker leaves, and whether it goes on to recount. */
  lemma UpdateLeaves(s: State, h: Handler, id: NotificationId, success: bool, messageId: Option<string>)
    requires Enabled(s, Update(h, id, success, messageId))
    ensures var t := Step(s, Update(h, id, success, messageId));
      && t.rows.Keys == s.rows.Keys && t.cached == s.cached
      && t.rows[id].sms == s.rows[id].sms && t.rows[id].status == (if success then Sent else Failed)
      && t.rows[id].messageId == (if messageId == None || messageId == Some("") then s.rows[id].messageId else messageId.value)
      && (forall other :: other in s.rows && other != id ==> t.rows[other] == s.rows[other])
      && PcOf(t, h) == if s.rows[id].sms && success && IsBillableId(messageId) then ToCount else Ready
  {
    hide IsBillableId;
  }

  /** What a delivery callback does for each message status. */
  lemma CallbackLeaves(s: State, h: Handler, id: NotificationId, report: Report)
    requires Enabled(s, Callback(h, id, report))
    ensures var t := Step(s, Callback(h, id, report));
      && t.cached == s.cached
      && t.rows == (match report
                    case ReportDelivered => s.rows[id := s.rows[id].(status := Delivered)]
                    case ReportRead => s.rows[id := s.rows[id].(status := Delivered)]
                    case ReportFailed => s.rows[id := s.rows[id].(status := Failed)]
                    case ReportUndelivered => s.rows[id := s.rows[id].(status := Failed)]
                    case ReportSent => s.rows
                    case ReportOther => s.rows)
      && (PcOf(t, h) == ToCount <==> report in {ReportSent, ReportDelivered, ReportFailed, ReportUndelivered})
      && (PcOf(t, h) == Ready <==> report in {ReportRead, ReportOther})
  {
  }

  /** The remaining events: a row starts queued and without an id, a missed cache leads to a recount, a failure ends the handler. */
  lemma OthersLeave(s: State, e: Event)
    requires Enabled(s, e)
    ensures e.Create? ==> Step(s, e) == s.(rows := s.rows[e.id := Row(e.sms, Queued, "")])
    ensures e.Miss? ==> s.cached == None && Step(s, e) == s.(handlers := s.handlers[e.handler := ToCount])
    ensures e.Abandon? ==> Step(s, e).rows == s.rows && Step(s, e).cached == s.cached && PcOf(Step(s, e), e.handler) == Ready
  {
  }

  // ----- Which events change the set of counted rows -----

  /** An accepted SMS, or a delivery reported of one that was not counted, comes in. */
  function Added(s: State, e: Event): set<NotificationId>
    requires Enabled(s, e)
  {
    match e
    case Update(_, id, success, messageId) =>
      if !IsCounted(s.rows[id]) && s.rows[id].sms && success && "SM" <= IdAfter(s.rows[id], messageId) then {id} else {}
    case Callback(_, id, report) =>
      if !IsCounted(s.rows[id]) && s.rows[id].sms && "SM" <= s.rows[id].messageId && StatusOf(report) == Some(Delivered)
      then {id} else {}
    case _ => {}
  }

  /** A counted row goes out when its delivery failed, or when its job is processed again with another result. */
  function Dropped(s: State, e: Event): set<NotificationId>
    requires Enabled(s, e)
  {
    match e
    case Update(_, id, success, messageId) =>
      if IsCounted(s.rows[id]) && !(success && "SM" <= IdAfter(s.rows[id], messageId)) then {id} else {}
    case Callback(_, id, report) =>
      if IsCounted(s.rows[id]) && StatusOf(report) == Some(Failed) then {id} else {}
    case _ => {}
  }

  /** Writing one row changes the counted rows by that row alone. */
  lemma RowWritten(s: State, t: State, id: NotificationId)
    requires id in t.rows && t.rows == s.rows[id := t.rows[id]]
    ensures CountedRows(t) == if IsCounted(t.rows[id]) then CountedRows(s) + {id} else CountedRows(s) - {id}
    ensures id in CountedRows(s) <==> id in s.rows && IsCounted(s.rows[id])
  {
    hide IsCounted;
  }

  lemma CountedAfter(s: State, e: Event)
    requires Enabled(s, e)
    ensures CountedRows(Step(s, e)) == CountedRows(s) + Added(s, e) - Dropped(s, e)
    ensures Added(s, e) !! CountedRows(s) && Dropped(s, e) <= CountedRows(s) && Added(s, e) !! Dropped(s, e)
  {
    hide IsBillableId, CountedRows;
    if e.Create? || e.Update? || (e.Callback? && StatusOf(e.report).Some?) {
      RowWritten(s, Step(s, e), e.id);
    } else {
      SameRows(s, Step(s, e));
    }
    if e.Callback? {
      RowWritten(s, s, e.id);
    }
  }

  lemma SameRows(s: State, t: State)
    requires s.rows == t.rows
    ensures CountedRows(s) == CountedRows(t)
  {
  }

  /** No event from position `i` on takes a counted row away. */
  ghost predicate NoDropSince(s: State, events: seq<Event>, i: nat) {
    forall j :: i <= j < |events| && Enabled(Run(s, events[..j]), events[j]) ==> Dropped(Run(s, events[..j]), events[j]) == {}
  }

  ghost predicate NoAddSince(s: State, events: seq<Event>, i: nat) {
    forall j :: i <= j < |events| && Enabled(Run(s, events[..j]), events[j]) ==> Added(Run(s, events[..j]), events[j]) == {}
  }

  lemma SinceFront(s: State, events: seq<Event>, i: nat)
    requires i < |events|
    ensures var front, e := events[..|events| - 1], events[|events| - 1];
      && (NoDropSince(s, events, i) <==> NoDropSince(s, front, i) && (Enabled(Run(s, front), e) ==> Dropped(Run(s, front), e) == {}))
      && (NoAddSince(s, events, i) <==> NoAddSince(s, front, i) && (Enabled(Run(s, front), e) ==> Added(Run(s, front), e) == {}))
  {
    hide Run, Enabled, Dropped, Added;
    var front := events[..|events| - 1];
    assert forall j :: 0 <= j < |front| ==> front[..j] == events[..j] && front[j] == events[j];
    assert events[..|front|] == front;
  }

  /** While no row is taken away the set only grows, and it stays the same exactly if none is added. */
  lemma {:induction false} GrowsSince(s: State, events: seq<Event>, i: nat)
    requires i <= |events| && NoDropSince(s, events, i)
    ensures CountedRows(Run(s, events[..i])) <= CountedRows(Run(s, events))
    ensures CountedRows(Run(s, events[..i])) == CountedRows(Run(s, events)) <==> NoAddSince(s, events, i)
  {
    hide CountedRows, Step, NoDropSince, NoAddSince, Added, Dropped, Enabled;
    if i == |events| {
      assert events[..i] == events;
      assert NoAddSince(s, events, i) by { NothingSince(s, events); }
    } else {
      var front, e := events[..|events| - 1], events[|events| - 1];
      assert front[..i] == events[..i];
      SinceFront(s, events, i);
      GrowsSince(s, front, i);
      if Enabled(Run(s, front), e) {
        CountedAfter(Run(s, front), e);
      }
    }
  }

  lemma NothingSince(s: State, events: seq<Event>)
    ensures NoAddSince(s, events, |events|)
  {
  }

  // ----- The cache is the count at an earlier recount -----

  /** The position just after the latest recount of `h`. */
  function HeldFrom(s: State, events: seq<Event>, h: Handler): nat {
    if events == [] then 0
    else
      var front := events[..|events| - 1];
      if events[|events| - 1] == Recount(h) && Enabled(Run(s, front), Recount(h)) then |events| else HeldFrom(s, front, h)
  }

  /** The position just after the recount whose result stands in the cache. */
  function CachedFrom(s: State, events: seq<Event>): Option<nat> {
    if events == [] then None
    else
      var front, e := events[..|events| - 1], events[|events| - 1];
      if e.Write? && Enabled(Run(s, front), e) then Some(HeldFrom(s, front, e.handler)) else CachedFrom(s, front)
  }

  /** Nothing is cached, and no count is about to be. */
  predicate Fresh(s: State) {
    s.cached.None? && forall h :: h in s.handlers ==> !s.handlers[h].ToWrite?
  }

  lemma RecountCounts(s: State, h: Handler)
    requires Enabled(s, Recount(h))
    ensures CountedRows(Step(s, Recount(h))) == CountedRows(s)
    ensures PcOf(Step(s, Recount(h)), h) == ToWrite(BillableCount(s))
  {
  }

  lemma OthersKeepPc(s: State, e: Event, h: Handler)
    requires Enabled(s, e) && e != Recount(h)
    ensures PcOf(Step(s, e), h).ToWrite? ==> PcOf(Step(s, e), h) == PcOf(s, h)
    ensures Step(s, e).cached == if e.Write? then Some(PcOf(s, e.handler).count) else s.cached
  {
    hide IsBillableId, IsCounted;
  }

  lemma {:induction false} HeldIsEarlierCount(s: State, events: seq<Event>, h: Handler)
    requires Fresh(s)
    ensures HeldFrom(s, events, h) <= |events|
    ensures PcOf(Run(s, events), h).ToWrite? ==>
      PcOf(Run(s, events), h).count == BillableCount(Run(s, events[..HeldFrom(s, events, h)]))
  {
    hide Step, Enabled, CountedRows;
    if events != [] {
      var front, e := events[..|events| - 1], events[|events| - 1];
      HeldIsEarlierCount(s, front, h);
      assert front[..HeldFrom(s, front, h)] == events[..HeldFrom(s, front, h)];
      if Enabled(Run(s, front), e) {
        if e == Recount(h) {
          RecountCounts(Run(s, front), h);
          assert events[..|events|] == events;
        } else {
          OthersKeepPc(Run(s, front), e, h);
        }
      }
    }
  }

  /** In every interleaving the cached usage is what one recount found, at the position that CachedFrom gives. */
  lemma {:induction false} CacheIsEarlierCount(s: State, events: seq<Event>)
    requires Fresh(s)
    ensures var at := CachedFrom(s, events);
      && (at.Some? ==> at.value <= |events|)
      && Run(s, events).cached == if at.None? then None else Some(BillableCount(Run(s, events[..at.value])))
  {
    hide Step, BillableCount, Enabled;
    if events != [] {
      var front, e := events[..|events| - 1], events[|events| - 1];
      CacheIsEarlierCount(s, front);
      assert CachedFrom(s, front).Some? ==> front[..CachedFrom(s, front).value] == events[..CachedFrom(s, front).value];
      if Enabled(Run(s, front), e) {
        CachedAfter(Run(s, front), e);
        if e.Write? {
          HeldIsEarlierCount(s, front, e.handler);
          assert front[..HeldFrom(s, front, e.handler)] == events[..HeldFrom(s, front, e.handler)];
        }
      }
    }
  }

  lemma CachedAfter(s: State, e: Event)
    requires Enabled(s, e)
    ensures e.Write? ==> PcOf(s, e.handler).ToWrite? && Step(s, e).cached == Some(PcOf(s, e.handler).count)
    ensures !e.Write? ==> Step(s, e).cached == s.cached
  {
    hide IsBillableId, IsCounted;
  }

  /** How many rows came in over the events from position `i` on, each time they did. */
  function Arrivals(s: State, events: seq<Event>, i: nat): nat {
    if |events| <= i then 0
    else
      var front, e := events[..|events| - 1], events[|events| - 1];
      Arrivals(s, front, i) + if Enabled(Run(s, front), e) then |Added(Run(s, front), e)| else 0
  }

  /** How many counted rows went out, each time they did. */
  function Departures(s: State, events: seq<Event>, i: nat): nat {
    if |events| <= i then 0
    else
      var front, e := events[..|events| - 1], events[|events| - 1];
      Departures(s, front, i) + if Enabled(Run(s, front), e) then |Dropped(Run(s, front), e)| else 0
  }

  /** Over any stretch of a run the count changes by what came in and what went out. */
  lemma {:induction false} CountBalances(s: State, events: seq<Event>, i: nat)
    requires i <= |events|
    ensures BillableCount(Run(s, events)) + Departures(s, events, i) == BillableCount(Run(s, events[..i])) + Arrivals(s, events, i)
  {
    hide CountedRows, Step, Added, Dropped, Enabled;
    if i == |events| {
      assert events[..i] == events;
    } else {
      var front, e := events[..|events| - 1], events[|events| - 1];
      assert front[..i] == events[..i];
      CountBalances(s, front, i);
      if Enabled(Run(s, front), e) {
        CountedAfter(Run(s, front), e);
        ChangedCount(CountedRows(Run(s, front)), Added(Run(s, front), e), Dropped(Run(s, front), e));
      }
    }
  }

  /**
   * The cached usage is within the true count exactly if, over the events since the recount it comes from, rows went
   * out no more often than rows came in, and it is the true count exactly if they did equally often.
   */
  lemma CacheWithinIff(s: State, events: seq<Event>)
    requires Fresh(s) && Run(s, events).cached.Some?
    ensures var t, at := Run(s, events), CachedFrom(s, events);
      && at.Some? && at.value <= |events|
      && (t.cached.value <= BillableCount(t) <==> Departures(s, events, at.value) <= Arrivals(s, events, at.value))
      && (t.cached.value == BillableCount(t) <==> Departures(s, events, at.value) == Arrivals(s, events, at.value))
  {
    hide BillableCount, Run, CachedFrom, Arrivals, Departures;
    CacheIsEarlierCount(s, events);
    CountBalances(s, events, CachedFrom(s, events).value);
  }

  /** If no counted row went out since that recount, the cache does not exceed the count, and equals it iff none came in. */
  lemma CacheNeverExceeds(s: State, events: seq<Event>)
    requires Fresh(s) && Run(s, events).cached.Some?
    requires var at := CachedFrom(s, events); at.Some? ==> NoDropSince(s, events, at.value)
    ensures var t, at := Run(s, events), CachedFrom(s, events);
      && at.Some? && t.cached.value <= BillableCount(t)
      && (t.cached.value == BillableCount(t) <==> NoAddSince(s, events, at.value))
  {
    hide CountedRows, Run, CachedFrom, NoDropSince, NoAddSince;
    CacheIsEarlierCount(s, events);
    var at := CachedFrom(s, events).value;
    GrowsSince(s, events, at);
    SubsetCount(CountedRows(Run(s, events[..at])), CountedRows(Run(s, events)));
  }

  lemma {:induction false} SubsetCount<T>(a: set<T>, b: set<T>)
    requires a <= b
    ensures |a| <= |b|
    ensures |a| == |b| <==> a == b
  {
    if a != {} {
      var x :| x in a;
      SubsetCount(a - {x}, b - {x});
      assert a == a - {x} + {x} && b == b - {x} + {x};
    }
  }

  /** No job is processed again once its row is sent, and no delivery is reported failed. */
  predicate SendsOnce(s: State, e: Event) {
    match e
    case Update(_, id, _, _) => id in s.rows ==> s.rows[id].status.Queued? || s.rows[id].status.Failed?
    case Callback(_, _, report) => StatusOf(report) != Some(Failed)
    case _ => true
  }

  /** The worker on its own: where sent rows are left alone and deliveries succeed, the cache never exceeds the count. */
  lemma WorkerNeverExceeds(s: State, events: seq<Event>)
    requires Fresh(s) && forall j :: 0 <= j < |events| ==> SendsOnce(Run(s, events[..j]), events[j])
    ensures Run(s, events).cached.Some? ==> Run(s, events).cached.value <= BillableCount(Run(s, events))
  {
    hide BillableCount;
    CacheIsEarlierCount(s, events);
    if Run(s, events).cached.Some? {
      CacheNeverExceeds(s, events);
    }
  }

  // ----- One handler -----

  predicate Touches(h: Handler, e: Event) {
    e == Write(h) || e == Abandon(h)
  }

  lemma {:induction false} HeldCountStays(s: State, h: Handler, between: seq<Event>)
    requires PcOf(s, h).ToWrite?
    requires forall k :: 0 <= k < |between| ==> !Touches(h, between[k])
    ensures PcOf(Run(s, between), h) == PcOf(s, h)
  {
    hide Step, Enabled;
    if between != [] {
      var front, e := between[..|between| - 1], between[|between| - 1];
      HeldCountStays(s, h, front);
      assert !Touches(h, e);
      if Enabled(Run(s, front), e) { BusyStaysBusy(Run(s, front), h, e); }
    }
  }

  lemma BusyStaysBusy(s: State, h: Handler, e: Event)
    requires Enabled(s, e) && PcOf(s, h).ToWrite? && !Touches(h, e)
    ensures PcOf(Step(s, e), h) == PcOf(s, h)
  {
    hide IsBillableId, IsCounted;
  }

  /**
   * Whatever happens between a recount and its write, the write is exact if and only if counted rows went out
   * as often as rows came in; and if none went out, if and only if none came in.
   */
  lemma WriteIsExactIff(s: State, h: Handler, between: seq<Event>)
    requires PcOf(s, h) == ToWrite(BillableCount(s))
    requires forall k :: 0 <= k < |between| ==> !Touches(h, between[k])
    ensures var held := Run(s, between);
      && Enabled(held, Write(h))
      && var exact := Step(held, Write(h)).cached == Some(BillableCount(Step(held, Write(h))));
      && (exact <==> Departures(s, between, 0) == Arrivals(s, between, 0))
      && (NoDropSince(s, between, 0) ==> (exact <==> CountedRows(held) == CountedRows(s)) && (exact <==> NoAddSince(s, between, 0)))
  {
    hide CountedRows, Run, NoDropSince, NoAddSince, Arrivals, Departures;
    HeldCountStays(s, h, between);
    var held := Run(s, between);
    WriteKeepsRows(held, h);
    RunNothing(s, between);
    CountBalances(s, between, 0);
    if NoDropSince(s, between, 0) {
      GrowsSince(s, between, 0);
      SubsetCount(CountedRows(s), CountedRows(held));
    }
  }

  lemma RunNothing(s: State, events: seq<Event>)
    ensures Run(s, events[..0]) == s
  {
  }

  lemma WriteKeepsRows(s: State, h: Handler)
    requires PcOf(s, h).ToWrite?
    ensures Enabled(s, Write(h)) && Step(s, Write(h)).cached == Some(PcOf(s, h).count)
    ensures CountedRows(Step(s, Write(h))) == CountedRows(s)
  {
  }

  /** A handler that nobody interrupts leaves the cache exact, whatever it did to its row. */
  lemma HandlerAloneIsExact(s: State, h: Handler, e: Event)
    requires (e.Update? || e.Callback? || e.Miss?) && e.handler == h && Enabled(s, e) && PcOf(Step(s, e), h) == ToCount
    ensures var counted := Step(s, e);
      && Enabled(counted, Recount(h)) && Enabled(Step(counted, Recount(h)), Write(h))
      && var end := Step(Step(counted, Recount(h)), Write(h));
      end.cached == Some(BillableCount(end)) && PcOf(end, h) == Ready
  {
    hide Step, CountedRows;
    var counted := Step(s, e);
    assert Enabled(counted, Recount(h));
    RecountCounts(counted, h);
    WriteKeepsRows(Step(counted, Recount(h)), h);
    assert PcOf(Step(Step(counted, Recount(h)), Write(h)), h) == Ready by { DoneIsReady(Step(counted, Recount(h)), h); }
  }

  lemma DoneIsReady(s: State, h: Handler)
    requires Enabled(s, Write(h))
    ensures PcOf(Step(s, Write(h)), h) == Ready
  {
  }

  // ----- Runs that go wrong -----

  /** The state after `h` handles `e` and recounts; `h` then holds that count. */
  function Counted(s: State, h: Handler, e: Event): State
    requires (e.Update? || e.Callback?) && e.handler == h && Enabled(s, e) && PcOf(Step(s, e), h) == ToCount
  {
    Step(Step(s, e), Recount(h))
  }

  lemma CountedHolds(s: State, h: Handler, e: Event)
    requires (e.Update? || e.Callback?) && e.handler == h && Enabled(s, e) && PcOf(Step(s, e), h) == ToCount
    ensures var c := Counted(s, h, e);
      && PcOf(c, h) == ToWrite(BillableCount(c)) && CountedRows(c) == CountedRows(s) + Added(s, e) - Dropped(s, e)
      && c.cached == s.cached && c.rows == Step(s, e).rows
    ensures forall g :: g != h ==> PcOf(Counted(s, h, e), g) == PcOf(s, g)
  {
    hide IsBillableId, Added, Dropped, CountedRows, IsCounted;
    CountedAfter(s, e);
    RecountCounts(Step(s, e), h);
  }

  /** Two handlers write their counts in the other order; nothing is then left to correct the cache. */
  lemma CrossedWrites(s: State, g: Handler, h: Handler, first: Event, second: Event)
    requires g != h && PcOf(s, h) == Ready
    requires (first.Update? || first.Callback?) && first.handler == g && Enabled(s, first) && PcOf(Step(s, first), g) == ToCount
    requires var c := Counted(s, g, first);
      (second.Update? || second.Callback?) && second.handler == h && Enabled(c, second) && PcOf(Step(c, second), h) == ToCount
    ensures var c := Counted(s, g, first);
      var d := Counted(c, h, second);
      && Enabled(d, Write(h)) && Enabled(Step(d, Write(h)), Write(g))
      && var end := Step(Step(d, Write(h)), Write(g));
      && PcOf(end, g) == Ready && PcOf(end, h) == Ready
      && end.cached == Some(BillableCount(c)) && BillableCount(end) == BillableCount(c) + |Added(c, second)| - |Dropped(c, second)|
  {
    hide Counted, CountedRows, Added, Dropped, Step;
    CountedHolds(s, g, first);
    var c := Counted(s, g, first);
    CountedHolds(c, h, second);
    CountedAfter(c, second);
    var d := Counted(c, h, second);
    WriteKeepsRows(d, h);
    WriteKeepsOthers(d, h, g);
    var e := Step(d, Write(h));
    WriteKeepsRows(e, g);
    WriteKeepsOthers(e, g, h);
    ChangedCount(CountedRows(c), Added(c, second), Dropped(c, second));
  }

  lemma ChangedCount<T>(was: set<T>, added: set<T>, dropped: set<T>)
    requires added !! was && dropped <= was && added !! dropped
    ensures |was + added - dropped| == |was| + |added| - |dropped|
  {
    assert was + added - dropped == (was - dropped) + added;
    assert |was - dropped| == |was| - |was * dropped| && was * dropped == dropped;
  }

  lemma WriteKeepsOthers(s: State, h: Handler, g: Handler)
    requires PcOf(s, h).ToWrite? && g != h
    ensures PcOf(Step(s, Write(h)), g) == PcOf(s, g) && PcOf(Step(s, Write(h)), h) == Ready
  {
  }

  /** A queued SMS that the provider accepts comes in and is recounted. */
  lemma AcceptedComesIn(s: State, h: Handler, id: NotificationId, sid: string)
    requires PcOf(s, h) == Ready && id in s.rows && s.rows[id].sms && s.rows[id].status.Queued?
    requires IsBillableId(Some(sid)) && "SM" <= sid
    ensures var e := Update(h, id, true, Some(sid));
      && Enabled(s, e) && PcOf(Step(s, e), h) == ToCount && Added(s, e) == {id} && Dropped(s, e) == {}
      && IsCounted(Step(s, e).rows[id]) && Step(s, e).rows.Keys == s.rows.Keys
      && forall other :: other in s.rows && other != id ==> Step(s, e).rows[other] == s.rows[other]
  {
    assert sid != "";
  }

  /** A counted SMS whose delivery is reported failed goes out and is recounted. */
  lemma FailedGoesOut(s: State, h: Handler, id: NotificationId)
    requires PcOf(s, h) == Ready && id in s.rows && IsCounted(s.rows[id])
    ensures var e := Callback(h, id, ReportFailed);
      Enabled(s, e) && PcOf(Step(s, e), h) == ToCount && Added(s, e) == {} && Dropped(s, e) == {id}
  {
  }

  /** Two acceptances whose writes cross leave the cache one short. */
  lemma CrossedWritesFallShort(s: State, g: Handler, h: Handler, i: NotificationId, j: NotificationId, a: string, b: string)
    requires g != h && PcOf(s, g) == Ready && PcOf(s, h) == Ready && i != j && i in s.rows && j in s.rows
    requires s.rows[i].sms && s.rows[j].sms && s.rows[i].status.Queued? && s.rows[j].status.Queued?
    requires IsBillableId(Some(a)) && IsBillableId(Some(b)) && "SM" <= a && "SM" <= b
    ensures Enabled(s, Update(g, i, true, Some(a))) && PcOf(Step(s, Update(g, i, true, Some(a))), g) == ToCount
    ensures var c := Counted(s, g, Update(g, i, true, Some(a)));
      && Enabled(c, Update(h, j, true, Some(b))) && PcOf(Step(c, Update(h, j, true, Some(b))), h) == ToCount
      && var d := Counted(c, h, Update(h, j, true, Some(b)));
      && Enabled(d, Write(h)) && Enabled(Step(d, Write(h)), Write(g))
      && var end := Step(Step(d, Write(h)), Write(g));
      PcOf(end, g) == Ready && PcOf(end, h) == Ready && end.cached == Some(BillableCount(end) - 1)
  {
    hide Counted, Step, Enabled, Added, Dropped, IsBillableId, BillableCount, IsCounted;
    var first, second := Update(g, i, true, Some(a)), Update(h, j, true, Some(b));
    AcceptedComesIn(s, g, i, a);
    CountedHolds(s, g, first);
    AcceptedComesIn(Counted(s, g, first), h, j, b);
    CrossedWrites(s, g, h, first, second);
  }

  /** An acceptance and a failed delivery whose writes cross leave the cache one too high. */
  lemma CrossedFailureOvershoots(s: State, g: Handler, h: Handler, id: NotificationId, sid: string)
    requires g != h && PcOf(s, g) == Ready && PcOf(s, h) == Ready
    requires id in s.rows && s.rows[id].sms && s.rows[id].status.Queued? && IsBillableId(Some(sid)) && "SM" <= sid
    ensures Enabled(s, Update(g, id, true, Some(sid))) && PcOf(Step(s, Update(g, id, true, Some(sid))), g) == ToCount
    ensures var c := Counted(s, g, Update(g, id, true, Some(sid)));
      && Enabled(c, Callback(h, id, ReportFailed)) && PcOf(Step(c, Callback(h, id, ReportFailed)), h) == ToCount
      && var d := Counted(c, h, Callback(h, id, ReportFailed));
      && Enabled(d, Write(h)) && Enabled(Step(d, Write(h)), Write(g))
      && var end := Step(Step(d, Write(h)), Write(g));
      PcOf(end, g) == Ready && PcOf(end, h) == Ready && end.cached == Some(BillableCount(end) + 1)
  {
    hide Counted, Step, Enabled, Added, Dropped, IsBillableId, BillableCount, IsCounted;
    var first, second := Update(g, id, true, Some(sid)), Callback(h, id, ReportFailed);
    AcceptedComesIn(s, g, id, sid);
    CountedHolds(s, g, first);
    FailedGoesOut(Counted(s, g, first), h, id);
    CrossedWrites(s, g, h, first, second);
  }

  /** Even without crossing, a failed delivery leaves an exact cache one too high until its own recount is written. */
  lemma FailedDeliveryOvershoots(s: State, h: Handler, id: NotificationId)
    requires PcOf(s, h) == Ready && id in s.rows && IsCounted(s.rows[id]) && s.cached == Some(BillableCount(s))
    ensures Enabled(s, Callback(h, id, ReportFailed))
    ensures var t := Step(s, Callback(h, id, ReportFailed)); t.cached == Some(BillableCount(t) + 1)
  {
    hide IsCounted;
    FailedGoesOut(s, h, id);
    CountedAfter(s, Callback(h, id, ReportFailed));
    ChangedCount(CountedRows(s), {}, {id});
  }

  const NOTHING := State(map[], map[], None)

  lemma RunLast(s: State, front: seq<Event>, e: Event)
    requires Enabled(Run(s, front), e)
    ensures Run(s, front + [e]) == Step(Run(s, front), e)
  {
    assert (front + [e])[..|front|] == front;
  }

  /** Nothing else happened, and one SMS with this id was accepted, recounted and cached. */
  lemma OneSmsCached(sid: string)
    requires IsBillableId(Some(sid)) && "SM" <= sid
    ensures Run(NOTHING, [Create(0, true), Update(0, 0, true, Some(sid)), Recount(0), Write(0)])
         == State(map[0 := Row(true, Sent, sid)], map[0 := Ready], Some(1))
  {
    hide IsBillableId;
    var e1, e2, e3, e4 := Create(0, true), Update(0, 0, true, Some(sid)), Recount(0), Write(0);
    assert [] + [e1] == [e1] && [e1] + [e2] == [e1, e2] && [e1, e2] + [e3] == [e1, e2, e3] && [e1, e2, e3] + [e4] == [e1, e2, e3, e4];
    assert sid != "";
    RunLast(NOTHING, [], e1);
    RunLast(NOTHING, [e1], e2);
    RecountsOne(Run(NOTHING, [e1, e2]), sid);
    RunLast(NOTHING, [e1, e2], e3);
    RunLast(NOTHING, [e1, e2, e3], e4);
  }

  lemma RecountsOne(s: State, sid: string)
    requires s == State(map[0 := Row(true, Sent, sid)], map[0 := ToCount], None) && "SM" <= sid
    ensures Enabled(s, Recount(0)) && Step(s, Recount(0)) == s.(handlers := map[0 := ToWrite(1)])
  {
    assert CountedRows(s) == {0};
  }

  /** A whole run from nothing: one SMS accepted and cached, then its delivery reported failed. */
  lemma FailedDeliveryRun(sid: string)
    requires IsBillableId(Some(sid)) && "SM" <= sid
    ensures Fresh(NOTHING)
    ensures var t := Run(NOTHING, [Create(0, true), Update(0, 0, true, Some(sid)), Recount(0), Write(0), Callback(0, 0, ReportFailed)]);
      t.cached == Some(1) && BillableCount(t) == 0
  {
    hide IsBillableId, Run;
    var four, e5 := [Create(0, true), Update(0, 0, true, Some(sid)), Recount(0), Write(0)], Callback(0, 0, ReportFailed);
    OneSmsCached(sid);
    RunLast(NOTHING, four, e5);
    var t := Step(Run(NOTHING, four), e5);
    assert four + [e5] == [Create(0, true), Update(0, 0, true, Some(sid)), Recount(0), Write(0), e5];
    assert CountedRows(t) == {};
  }
}
