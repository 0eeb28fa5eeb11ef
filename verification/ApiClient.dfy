/** The request wrapper of the web clients: one retry of a GET, one refresh, and when the session ends. */
module ApiClient {
  import opened Options
  import opened Text

  /** What a fetch brings back. */
  datatype Reply = Status(code: int) | NetworkFailure

  datatype RefreshResult = Success | Invalid | Unavailable

  /** The loyalty app's own wrapper, and the shared one; they differ in how they read a manual token. */
  datatype Client = Loyalty | Shared

  datatype Call = Call(path: string, verb: string, token: Option<string>, skipAuth: bool, retryGet: bool)

  /** The outside world: replies in order, the store's token before and after a refresh, and how a refresh ends. */
  datatype World = World(replies: nat -> Reply, stored: Option<string>, refresh: RefreshResult, refreshed: Option<string>)

  datatype Event = Fetch(bearer: string) | Refresh | EndSession

  datatype Outcome = Returned(code: int) | Failed(code: int) | NetworkError

  predicate IsOk(code: int) {
    200 <= code <= 299
  }

  predicate IsTransient(code: int) {
    code in {502, 503, 504, 429}
  }

  function OrEmpty(t: Option<string>): string {
    if t.Some? then t.value else ""
  }

  predicate UsesManualToken(client: Client, call: Call) {
    call.token.Some? && if client.Loyalty? then call.token.value != "" else Trim(call.token.value) != ""
  }

  /** The bearer token sent, empty when none is: the loyalty wrapper lets an empty manual token hide the stored one. */
  function TokenFor(client: Client, call: Call, stored: Option<string>): string {
    if call.skipAuth then ""
    else if UsesManualToken(client, call) || (client.Loyalty? && call.token.Some?) then call.token.value
    else OrEmpty(stored)
  }

  const AUTH_PATHS := {"/auth/refresh", "/auth/login", "/auth/login/2fa", "/api/auth/refresh", "/api/auth/login", "/api/auth/login/2fa"}

  predicate CanTryRefresh(client: Client, call: Call) {
    !call.skipAuth && !UsesManualToken(client, call) && call.path !in AUTH_PATHS
  }

  predicate RetriesGet(call: Call, reply: Reply) {
    call.retryGet && call.verb == "GET" && reply.Status? && IsTransient(reply.code)
  }

  /** From a reply that is an error: the refresh, the last fetch, and the end of the session. */
  function AfterError(client: Client, call: Call, world: World, code: int, sent: nat): (seq<Event>, Outcome) {
    var token := TokenFor(client, call, world.stored);
    if code != 401 || token == "" then ([], Failed(code))
    else if !CanTryRefresh(client, call) then ([EndSession], Failed(code))
    else if world.refresh == Success && OrEmpty(world.refreshed) != "" then
      var fetch := [Refresh, Fetch(OrEmpty(world.refreshed))];
      match world.replies(sent)
      case NetworkFailure => (fetch, NetworkError)
      case Status(c) => (fetch, if IsOk(c) then Returned(c) else Failed(c))
    else if world.refresh == Invalid then ([Refresh, EndSession], Failed(code))
    else ([Refresh], Failed(code))
  }

  function AfterReply(client: Client, call: Call, world: World, reply: Reply, sent: nat): (seq<Event>, Outcome) {
    match reply
    case NetworkFailure => ([], NetworkError)
    case Status(code) => if IsOk(code) then ([], Returned(code)) else AfterError(client, call, world, code, sent)
  }

  /** What one request does, and how it ends. */
  function Script(client: Client, call: Call, world: World): (seq<Event>, Outcome) {
    var fetch := Fetch(TokenFor(client, call, world.stored));
    if RetriesGet(call, world.replies(0)) then
      var (rest, outcome) := AfterReply(client, call, world, world.replies(1), 2);
      ([fetch, fetch] + rest, outcome)
    else
      var (rest, outcome) := AfterReply(client, call, world, world.replies(0), 1);
      ([fetch] + rest, outcome)
  }

  /** request: `res` and the Authorization header are reassigned as the replies come in. */
  method Request(client: Client, call: Call, world: World) returns (log: seq<Event>, outcome: Outcome)
    ensures (log, outcome) == Script(client, call, world)
  {
    hide TokenFor, CanTryRefresh, UsesManualToken, IsTransient;
    var bearer := TokenFor(client, call, world.stored);
    var hadToken := bearer != "";
    log := [Fetch(bearer)];
    assert log + [] == log && [Fetch(bearer), Fetch(bearer)] + [] == log + log;
    var sent := 1;
    var res := world.replies(0);
    if res.NetworkFailure? {
      return log, NetworkError;
    }
    if RetriesGet(call, res) {
      log := log + [Fetch(bearer)];
      assert log == [Fetch(bearer), Fetch(bearer)];
      res := world.replies(sent);
      sent := sent + 1;
      if res.NetworkFailure? {
        return log, NetworkError;
      }
    }
    if IsOk(res.code) {
      return log, Returned(res.code);
    }
    if res.code == 401 && hadToken {
      var canTryRefresh := CanTryRefresh(client, call);
      var refreshResult := Invalid;
      ghost var before := log;
      if canTryRefresh {
        log := log + [Refresh];
        refreshResult := world.refresh;
        if refreshResult == Success && OrEmpty(world.refreshed) != "" {
          bearer := OrEmpty(world.refreshed);
          log := log + [Fetch(bearer)];
          assert log == before + [Refresh, Fetch(bearer)];
          res := world.replies(sent);
          if res.NetworkFailure? {
            return log, NetworkError;
          }
          if IsOk(res.code) {
            return log, Returned(res.code);
          }
        }
      }
      if res.code == 401 && (refreshResult == Invalid || !canTryRefresh) {
        log := log + [EndSession];
        assert log == before + (if canTryRefresh then [Refresh, EndSession] else [EndSession]);
      }
    }
    return log, Failed(res.code);
  }

  function Count(log: seq<Event>, p: Event -> bool): nat {
    if log == [] then 0 else (if p(log[0]) then 1 else 0) + Count(log[1..], p)
  }

  predicate IsFetch(e: Event) { e.Fetch? }

  predicate IsRefresh(e: Event) { e.Refresh? }

  lemma {:induction false} CountAppend(a: seq<Event>, b: seq<Event>, p: Event -> bool)
    ensures Count(a + b, p) == Count(a, p) + Count(b, p)
  {
    if a == [] {
      assert a + b == b;
    } else {
      assert (a + b)[1..] == a[1..] + b;
      CountAppend(a[1..], b, p);
    }
  }

  /** The outcome that a reply leads to when nothing follows it. */
  function Final(reply: Reply): Outcome {
    match reply
    case NetworkFailure => NetworkError
    case Status(code) => if IsOk(code) then Returned(code) else Failed(code)
  }

  lemma ShortCounts(rest: seq<Event>, p: Event -> bool)
    requires |rest| <= 2
    ensures Count(rest, p) == (if |rest| > 0 && p(rest[0]) then 1 else 0) + (if |rest| > 1 && p(rest[1]) then 1 else 0)
  {
    if |rest| == 2 {
      assert rest[1..] == [rest[1]] && [rest[1]][1..] == [];
    } else if |rest| == 1 {
      assert rest[1..] == [];
    }
  }

  /** The reply that counts once a transient failure of a GET has been retried. */
  function SettledReply(call: Call, world: World): Reply {
    if RetriesGet(call, world.replies(0)) then world.replies(1) else world.replies(0)
  }

  /** A 401 to a request that carried the stored token, on a path where refreshing makes sense. */
  predicate TriesRefresh(client: Client, call: Call, world: World, reply: Reply) {
    reply == Status(401) && TokenFor(client, call, world.stored) != "" && CanTryRefresh(client, call)
  }

  predicate RefreshWorks(world: World) {
    world.refresh == Success && OrEmpty(world.refreshed) != ""
  }

  lemma TailCounts(client: Client, call: Call, world: World, reply: Reply, sent: nat)
    ensures var (rest, outcome) := AfterReply(client, call, world, reply, sent);
      && Count(rest, IsRefresh) == (if TriesRefresh(client, call, world, reply) then 1 else 0)
      && Count(rest, IsFetch) == (if TriesRefresh(client, call, world, reply) && RefreshWorks(world) then 1 else 0)
      && outcome == if Count(rest, IsFetch) == 0 then Final(reply) else Final(world.replies(sent))
  {
    hide TokenFor, CanTryRefresh, Count;
    var rest := AfterReply(client, call, world, reply, sent).0;
    ShortCounts(rest, IsFetch);
    ShortCounts(rest, IsRefresh);
  }

  /**
   * Whatever the server answers: one fetch, one more exactly when a GET met a transient failure, one more exactly
   * when a refresh was called for and worked; and the reply to the last of them decides how the request ends.
   */
  lemma FetchesAndRefreshes(client: Client, call: Call, world: World)
    ensures var (log, outcome) := Script(client, call, world);
      var refreshes := TriesRefresh(client, call, world, SettledReply(call, world));
      && Count(log, IsRefresh) == (if refreshes then 1 else 0)
      && Count(log, IsFetch) == 1 + (if RetriesGet(call, world.replies(0)) then 1 else 0) + (if refreshes && RefreshWorks(world) then 1 else 0)
      && outcome == Final(world.replies(Count(log, IsFetch) - 1))
  {
    hide AfterReply, TokenFor, RetriesGet, Final, TriesRefresh, RefreshWorks;
    var fetch := Fetch(TokenFor(client, call, world.stored));
    ShortCounts([fetch], IsFetch);
    ShortCounts([fetch], IsRefresh);
    ShortCounts([fetch, fetch], IsFetch);
    ShortCounts([fetch, fetch], IsRefresh);
    if RetriesGet(call, world.replies(0)) {
      TailCounts(client, call, world, world.replies(1), 2);
      CountAppend([fetch, fetch], AfterReply(client, call, world, world.replies(1), 2).0, IsFetch);
      CountAppend([fetch, fetch], AfterReply(client, call, world, world.replies(1), 2).0, IsRefresh);
    } else {
      TailCounts(client, call, world, world.replies(0), 1);
      CountAppend([fetch], AfterReply(client, call, world, world.replies(0), 1).0, IsFetch);
      CountAppend([fetch], AfterReply(client, call, world, world.replies(0), 1).0, IsRefresh);
    }
  }

  /** At most three fetches and at most one refresh, for every sequence of replies. */
  lemma AtMostThreeFetches(client: Client, call: Call, world: World)
    ensures var log := Script(client, call, world).0;
      1 <= Count(log, IsFetch) <= 3 && Count(log, IsRefresh) <= 1
  {
    hide Script, TriesRefresh, RefreshWorks, RetriesGet;
    FetchesAndRefreshes(client, call, world);
  }

  /** A request that is no GET goes out again only after a 401 and a refresh that succeeded, and with the new token. */
  lemma ResendNeedsRefresh(client: Client, call: Call, world: World, i: nat)
    requires call.verb != "GET"
    ensures var log := Script(client, call, world).0;
      0 < i < |log| && log[i].Fetch? ==>
        && world.replies(0) == Status(401) && i == 2 && log[1] == Refresh
        && world.refresh == Success && world.refreshed == Some(log[2].bearer) && log[2].bearer != ""
  {
    hide TokenFor, CanTryRefresh;
  }

  /** The session ends exactly on a final 401 for which a token was sent and refresh was impossible or rejected. */
  lemma SessionEndsIff(client: Client, call: Call, world: World)
    ensures var (log, outcome) := Script(client, call, world);
      EndSession in log <==>
        && outcome == Failed(401) && TokenFor(client, call, world.stored) != ""
        && (!CanTryRefresh(client, call) || world.refresh == Invalid)
  {
    hide TokenFor, CanTryRefresh;
  }

  // ----- Tokens, statuses and paths, spelt out -----

  /**
   * The bearer of the first fetch: none when authentication is skipped, otherwise the manual token if there is one,
   * and the stored one if not. A blank manual token counts as none in the shared wrapper; in the loyalty wrapper it does not.
   */
  lemma FirstBearer(client: Client, call: Call, world: World)
    ensures var stored := if world.stored.Some? then world.stored.value else "";
      var log := Script(client, call, world).0;
      log != [] && log[0]
      == Fetch(if call.skipAuth then ""
               else if call.token.None? || (client.Shared? && Trim(call.token.value) == "") then stored
               else call.token.value)
  {
    hide AfterReply, RetriesGet, Trim;
  }

  /** The second event is the same fetch again exactly when a GET that may be retried met one of four statuses. */
  lemma SecondFetch(client: Client, call: Call, world: World)
    ensures var log := Script(client, call, world).0;
      (|log| > 1 && log[1].Fetch?) <==>
        call.retryGet && call.verb == "GET" && (exists code :: code in {429, 502, 503, 504} && world.replies(0) == Status(code))
    ensures var log := Script(client, call, world).0;
      |log| > 1 && log[1].Fetch? ==> log[1] == log[0]
  {
    hide TokenFor, CanTryRefresh;
  }

  /** When the client asks for a refresh: on a 401, with a token that was the stored one, and not on a path of sign-in itself. */
  lemma RefreshAskedIff(client: Client, call: Call, world: World)
    ensures Refresh in Script(client, call, world).0 <==>
      && SettledReply(call, world) == Status(401)
      && !call.skipAuth && world.stored.Some? && world.stored.value != ""
      && (call.token.None? || (client.Shared? && Trim(call.token.value) == ""))
      && call.path != "/auth/refresh" && call.path != "/auth/login" && call.path != "/auth/login/2fa"
      && call.path != "/api/auth/refresh" && call.path != "/api/auth/login" && call.path != "/api/auth/login/2fa"
  {
    hide RetriesGet, Trim;
  }

  /** After a refresh comes a fetch exactly if it succeeded and left a token, and the fetch carries that token. */
  lemma FetchAfterRefresh(client: Client, call: Call, world: World, i: nat)
    requires var log := Script(client, call, world).0; i < |log| && log[i] == Refresh
    ensures var log := Script(client, call, world).0;
      && (i + 1 < |log| && log[i + 1].Fetch? <==> world.refresh == Success && world.refreshed.Some? && world.refreshed.value != "")
      && (i + 1 < |log| && log[i + 1].Fetch? ==> log[i + 1].bearer == world.refreshed.value)
  {
    hide RetriesGet, TokenFor, CanTryRefresh;
  }

  /** The outcome is the last reply: a result for the statuses 200 to 299, a failure for the others. */
  lemma OutcomeIsLastReply(client: Client, call: Call, world: World)
    ensures var (log, outcome) := Script(client, call, world);
      Count(log, IsFetch) > 0 &&
      match world.replies(Count(log, IsFetch) - 1)
      case NetworkFailure => outcome == NetworkError
      case Status(code) => outcome == if code < 200 || code > 299 then Failed(code) else Returned(code)
  {
    hide Script, TriesRefresh, RefreshWorks, RetriesGet;
    FetchesAndRefreshes(client, call, world);
  }

  // ----- One refresh at a time in a tab -----

  type Caller = nat

  datatype Gate = Gate(inFlight: Option<nat>, started: nat, waiting: map<Caller, nat>, results: map<Caller, RefreshResult>)

  datatype GateEvent = Ask(caller: Caller, impersonating: bool) | Settle(result: RefreshResult)

  const CLOSED := Gate(None, 0, map[], map[])

  /** refreshAccessToken: the module variable holds the attempt that is under way, and every caller joins it. */
  function GateStep(g: Gate, e: GateEvent): Gate {
    match e
    case Ask(c, impersonating) =>
      if c in g.waiting || c in g.results then g
      else if impersonating then g.(results := g.results[c := Invalid])
      else if g.inFlight.Some? then g.(waiting := g.waiting[c := g.inFlight.value])
      else Gate(Some(g.started), g.started + 1, g.waiting[c := g.started], g.results)
    case Settle(result) =>
      if g.inFlight.None? then g
      else Gate(None, g.started, map[], g.results + (map c | c in g.waiting :: result))
  }

  /** A new caller is refused if impersonating, and otherwise joins the attempt in flight, or starts the next one. */
  lemma AskJoinsOrStarts(g: Gate, c: Caller, impersonating: bool)
    requires c !in g.waiting && c !in g.results
    ensures var t := GateStep(g, Ask(c, impersonating));
      if impersonating then t == g.(results := g.results[c := Invalid])
      else && t.results == g.results && t.inFlight.Some? && t.waiting == g.waiting[c := t.inFlight.value]
           && t.inFlight.value == (if g.inFlight.Some? then g.inFlight.value else g.started)
           && t.started == g.started + if g.inFlight.Some? then 0 else 1
  {
  }

  /** The module variable `refreshInFlight`, and the callers that hold its promise. */
  class RefreshGate {
    var refreshInFlight: Option<nat>
    var started: nat
    var waiting: map<Caller, nat>
    var results: map<Caller, RefreshResult>

    function Snapshot(): Gate
      reads this
    {
      Gate(refreshInFlight, started, waiting, results)
    }

    method RefreshAccessToken(caller: Caller, impersonating: bool)
      requires caller !in waiting && caller !in results
      modifies this
      ensures Snapshot() == GateStep(old(Snapshot()), Ask(caller, impersonating))
    {
      if impersonating {
        results := results[caller := Invalid];
        return;
      }
      if refreshInFlight.None? {
        refreshInFlight := Some(started);
        started := started + 1;
      }
      waiting := waiting[caller := refreshInFlight.value];
    }

    /** The attempt ends: `refreshInFlight` is cleared, and the promise resolves for everyone who holds it. */
    method Resolve(result: RefreshResult)
      modifies this
      ensures Snapshot() == GateStep(old(Snapshot()), Settle(result))
    {
      if refreshInFlight.Some? {
        results := results + (map c | c in waiting :: result);
        waiting := map[];
        refreshInFlight := None;
      }
    }
  }

  function GateRun(events: seq<GateEvent>): Gate {
    if events == [] then CLOSED else GateStep(GateRun(events[..|events| - 1]), events[|events| - 1])
  }

  function Settled(events: seq<GateEvent>): nat {
    if events == [] then 0
    else
      var front := events[..|events| - 1];
      Settled(front) + if events[|events| - 1].Settle? && GateRun(front).inFlight.Some? then 1 else 0
  }

  /** Over any run, callers that wait together share one attempt, and a new attempt starts only after the last one settled. */
  lemma {:induction false} OverlapSharesAttempt(events: seq<GateEvent>)
    ensures var g := GateRun(events);
      && (forall c :: c in g.waiting ==> g.inFlight == Some(g.waiting[c]))
      && (g.inFlight.Some? ==> g.inFlight.value == g.started - 1)
      && g.started == Settled(events) + if g.inFlight.Some? then 1 else 0
  {
    if events != [] {
      OverlapSharesAttempt(events[..|events| - 1]);
    }
  }

  /** When the shared attempt settles, every caller that joined it gets that one result, and nobody is left waiting. */
  lemma SettleReachesAll(events: seq<GateEvent>, result: RefreshResult, c: Caller)
    requires c in GateRun(events).waiting
    ensures var g := GateRun(events + [Settle(result)]);
      c in g.results && g.results[c] == result && g.waiting == map[] && g.inFlight == None
  {
    OverlapSharesAttempt(events);
    assert (events + [Settle(result)])[..|events|] == events;
  }
}
