/**
 * The shared Redis subscriber connection: the manager's fields, the FIFO of commands written to Redis,
 * the channels the server holds, and the `subscribe` calls suspended at their `await`.
 */
module RedisPubSub {

  type Channel = string

  /** The identity of a callback; every subscribe call brings its own. */
  type Callback = nat

  datatype Command = Subscribe(channel: Channel, caller: Callback) | Unsubscribe(channel: Channel)

  datatype Status = Sent | Settled(ok: bool)

  /** A subscribe call waiting for the reply to its SUBSCRIBE. */
  datatype Frame = Frame(channel: Channel, status: Status)

  /** The fields of the manager, and the commands it has written that Redis has not yet executed. */
  datatype Manager = Manager(connected: bool, listeners: map<Channel, seq<Callback>>,
                             subscribing: map<Channel, bool>, queue: seq<Command>)

  datatype State = State(m: Manager, server: set<Channel>, frames: map<Callback, Frame>,
                         used: map<Callback, Channel>, teardowns: set<Callback>, tornDown: set<Callback>,
                         stuck: set<Channel>)

  datatype Event =
    | Call(channel: Channel, callback: Callback)
    | Execute(ok: bool)
    | Resume(callback: Callback)
    | Teardown(callback: Callback)

  const IDLE := State(Manager(false, map[], map[], []), {}, map[], map[], {}, {}, {})

  // ----- The manager -----

  function Listeners(m: Manager, c: Channel): seq<Callback> {
    if c in m.listeners then m.listeners[c] else []
  }

  /** `Set.add`: insertion order, no duplicates. */
  function With(l: seq<Callback>, x: Callback): seq<Callback> {
    if x in l then l else l + [x]
  }

  /** `Set.delete`. */
  function Without(l: seq<Callback>, x: Callback): seq<Callback> {
    if l == [] then [] else if l[0] == x then l[1..] else [l[0]] + Without(l[1..], x)
  }

  predicate IsFirst(m: Manager, c: Channel, x: Callback) {
    |With(Listeners(m, c), x)| == 1
  }

  /** subscribe, up to its await. */
  function StartSubscribe(m: Manager, c: Channel, x: Callback): Manager {
    var l := m.listeners[c := With(Listeners(m, c), x)];
    if IsFirst(m, c, x) then Manager(true, l, m.subscribing[c := true], m.queue + [Subscribe(c, x)])
    else Manager(true, l, m.subscribing, m.queue)
  }

  /** subscribe, after its await. */
  function FinishSubscribe(m: Manager, c: Channel, ok: bool): Manager {
    if ok then m.(subscribing := m.subscribing - {c})
    else m.(listeners := m.listeners - {c}, subscribing := m.subscribing - {c})
  }

  /** unsubscribe. */
  function StopListening(m: Manager, c: Channel, x: Callback): Manager {
    if c !in m.listeners then m
    else
      var l := Without(m.listeners[c], x);
      if l == [] then m.(listeners := m.listeners - {c}, queue := m.queue + [Unsubscribe(c)])
      else m.(listeners := m.listeners[c := l])
  }

  /** The service itself: each method is the stretch of code between two awaits. */
  class RedisPubSubManager {
    var subscriberConnected: bool
    var listeners: map<Channel, seq<Callback>>
    var isSubscribing: map<Channel, bool>
    var sent: seq<Command>

    function Snapshot(): Manager
      reads this
    {
      Manager(subscriberConnected, listeners, isSubscribing, sent)
    }

    constructor ()
      ensures Snapshot() == Manager(false, map[], map[], [])
    {
      subscriberConnected, listeners, isSubscribing, sent := false, map[], map[], [];
    }

    /** subscribe, up to its await; `suspended` tells whether it waits for a reply. */
    method BeginSubscribe(channel: Channel, callback: Callback) returns (suspended: bool)
      modifies this
      ensures Snapshot() == StartSubscribe(old(Snapshot()), channel, callback)
      ensures suspended == IsFirst(old(Snapshot()), channel, callback)
    {
      subscriberConnected := true;
      var channelListeners := [];
      if channel in listeners {
        channelListeners := listeners[channel];
      }
      if callback !in channelListeners {
        channelListeners := channelListeners + [callback];
      }
      listeners := listeners[channel := channelListeners];
      suspended := |channelListeners| == 1;
      if suspended {
        isSubscribing := isSubscribing[channel := true];
        sent := sent + [Subscribe(channel, callback)];
      }
    }

    /** subscribe, after its await: the reply came, or the command failed. */
    method EndSubscribe(channel: Channel, ok: bool)
      modifies this
      ensures Snapshot() == FinishSubscribe(old(Snapshot()), channel, ok)
    {
      if !ok {
        listeners := listeners - {channel};
      }
      isSubscribing := isSubscribing - {channel};
    }

    /** The teardown function that subscribe returns. */
    method Unsubscribe(channel: Channel, callback: Callback)
      modifies this
      ensures Snapshot() == StopListening(old(Snapshot()), channel, callback)
    {
      if channel !in listeners {
        return;
      }
      var channelListeners := Without(listeners[channel], callback);
      if |channelListeners| == 0 {
        listeners := listeners - {channel};
        sent := sent + [Command.Unsubscribe(channel)];
      } else {
        listeners := listeners[channel := channelListeners];
      }
    }

    /** The message handler: calls every callback of the channel, in order of arrival, whatever they throw. */
    method OnMessage(channel: Channel) returns (called: seq<Callback>)
      ensures called == Listeners(Snapshot(), channel)
    {
      called := [];
      if channel in listeners {
        var callbacks := listeners[channel];
        for i := 0 to |callbacks|
          invariant called == callbacks[..i]
        {
          called := called + [callbacks[i]];
        }
      }
    }
  }

  // ----- Interleaving -----

  predicate Enabled(s: State, e: Event) {
    match e
    case Call(_, x) => x !in s.used
    case Execute(_) => s.m.queue != []
    case Resume(x) => x in s.frames && s.frames[x].status.Settled?
    case Teardown(x) => x in s.teardowns && x in s.used
  }

  function ExecuteHead(s: State, ok: bool): State
    requires s.m.queue != []
  {
    var cmd := s.m.queue[0];
    var s' := s.(m := s.m.(queue := s.m.queue[1..]));
    match cmd
    case Subscribe(c, x) =>
      s'.(server := if ok then s.server + {c} else s.server,
          frames := s.frames[x := Frame(c, Settled(ok))],
          stuck := if ok then s.stuck - {c} else s.stuck)
    case Unsubscribe(c) =>
      s'.(server := if ok then s.server - {c} else s.server,
          stuck := if ok then s.stuck - {c} else s.stuck + {c})
  }

  function Step(s: State, e: Event): State
    requires Enabled(s, e)
  {
    match e
    case Call(c, x) =>
      var s' := s.(m := StartSubscribe(s.m, c, x), used := s.used[x := c]);
      if IsFirst(s.m, c, x) then s'.(frames := s.frames[x := Frame(c, Sent)])
      else s'.(teardowns := s.teardowns + {x})
    case Execute(ok) => ExecuteHead(s, ok)
    case Resume(x) =>
      var Frame(c, status) := s.frames[x];
      var s' := s.(m := FinishSubscribe(s.m, c, status.ok), frames := s.frames - {x});
      if status.ok then s'.(teardowns := s.teardowns + {x}) else s'
    case Teardown(x) =>
      s.(m := StopListening(s.m, s.used[x], x), tornDown := s.tornDown + {x})
  }

  /** Any interleaving: events in any order, those that cannot happen leave the state alone. */
  function Run(s: State, events: seq<Event>): State {
    if events == [] then s
    else
      var before := Run(s, events[..|events| - 1]);
      var e := events[|events| - 1];
      if Enabled(before, e) then Step(before, e) else before
  }

  // ----- What every interleaving keeps -----

  /** The server would hold channel `c` once it has executed `queue`: the last command on `c` decides. */
  predicate InReplay(c: Channel, server: set<Channel>, queue: seq<Command>) {
    if queue == [] then c in server
    else if queue[|queue| - 1].channel == c then queue[|queue| - 1].Subscribe?
    else InReplay(c, server, queue[..|queue| - 1])
  }

  predicate NoDuplicates(l: seq<Callback>) {
    forall i, j :: 0 <= i < j < |l| ==> l[i] != l[j]
  }

  predicate ListenersInv(s: State) {
    && (forall c :: c in s.m.listeners ==> s.m.listeners[c] != [] && NoDuplicates(s.m.listeners[c]))
    && (forall c, x :: c in s.m.listeners && x in s.m.listeners[c] ==> x in s.used && s.used[x] == c)
    && (s.m.listeners != map[] ==> s.m.connected)
  }

  predicate Awaiting(s: State, x: Callback, c: Channel) {
    x in s.frames && s.frames[x].channel == c
  }

  /** A suspended call is the only one on its channel, and its callback is listening. */
  ghost predicate FramesInv(s: State) {
    && (forall x :: x in s.frames ==> x in s.used && s.used[x] == s.frames[x].channel && x !in s.teardowns)
    && (forall x :: x in s.frames ==> s.frames[x].channel in s.m.listeners && x in s.m.listeners[s.frames[x].channel])
    && (forall x, y, c :: Awaiting(s, x, c) && Awaiting(s, y, c) ==> x == y)
    && (forall c :: c in s.m.subscribing <==> exists x :: Awaiting(s, x, c))
    && (forall x :: x in s.teardowns ==> x in s.used)
  }

  /** A queued SUBSCRIBE belongs to a suspended call, is the last command on its channel, and finds the channel absent. */
  predicate QueueInv(s: State) {
    forall i :: 0 <= i < |s.m.queue| && s.m.queue[i].Subscribe? ==>
      && s.m.queue[i].caller in s.frames
      && s.frames[s.m.queue[i].caller] == Frame(s.m.queue[i].channel, Sent)
      && (forall j :: i < j < |s.m.queue| ==> s.m.queue[j].channel != s.m.queue[i].channel)
      && (s.m.queue[i].channel !in s.stuck ==> !InReplay(s.m.queue[i].channel, s.server, s.m.queue[..i]))
  }

  ghost predicate FailurePending(s: State, c: Channel) {
    exists x :: Awaiting(s, x, c) && s.frames[x].status == Settled(false)
  }

  predicate Mentions(q: seq<Command>, c: Channel) {
    exists j :: 0 <= j < |q| && q[j].channel == c
  }

  /**
   * The replayed server holds the channels in `listeners`, less those whose failed SUBSCRIBE awaits handling.
   * A channel whose last executed command was a failed UNSUBSCRIBE is settled by the next command on it.
   */
  ghost predicate ReplayInv(s: State) {
    forall c :: c !in s.stuck || Mentions(s.m.queue, c) ==>
      (InReplay(c, s.server, s.m.queue) <==> c in s.m.listeners && !FailurePending(s, c))
  }

  /** A teardown belongs to a call that returned, and a callback torn down is not listening. */
  predicate LiveInv(s: State) {
    && (forall x :: x in s.tornDown ==> x in s.teardowns)
    && (forall c, x :: c in s.m.listeners && x in s.m.listeners[c] ==> x !in s.tornDown)
  }

  ghost predicate Inv(s: State) {
    ListenersInv(s) && FramesInv(s) && QueueInv(s) && ReplayInv(s) && LiveInv(s)
  }

  // ----- Sequences -----

  lemma {:induction false} WithoutProps(l: seq<Callback>, x: Callback)
    requires NoDuplicates(l)
    ensures NoDuplicates(Without(l, x))
    ensures forall y :: y in Without(l, x) <==> y in l && y != x
    ensures x !in l ==> Without(l, x) == l
  {
    if l != [] {
      assert l == [l[0]] + l[1..];
      assert l[0] !in l[1..];
      WithoutProps(l[1..], x);
      if l[0] != x {
        assert forall j :: 0 < j < |Without(l, x)| ==> Without(l, x)[j] in Without(l[1..], x);
        assert Without(l, x)[1..] == Without(l[1..], x);
      }
    }
  }

  lemma WithProps(l: seq<Callback>, x: Callback)
    requires NoDuplicates(l)
    ensures NoDuplicates(With(l, x)) && With(l, x) != []
    ensures forall y :: y in With(l, x) <==> y in l || y == x
    ensures |With(l, x)| == 1 && x !in l ==> l == []
  {
  }

  lemma ReplayAppend(c: Channel, server: set<Channel>, q: seq<Command>, cmd: Command)
    ensures InReplay(c, server, q + [cmd]) == if cmd.channel == c then cmd.Subscribe? else InReplay(c, server, q)
  {
    assert (q + [cmd])[..|q|] == q;
  }

  function Executed(server: set<Channel>, cmd: Command): set<Channel> {
    if cmd.Subscribe? then server + {cmd.channel} else server - {cmd.channel}
  }

  /** Executing the head of the queue does not change what the whole queue leads to. */
  lemma {:induction false} ReplayHead(c: Channel, server: set<Channel>, q: seq<Command>)
    requires q != []
    ensures InReplay(c, Executed(server, q[0]), q[1..]) == InReplay(c, server, q)
  {
    if |q| == 1 {
      assert q[..0] == [];
    } else {
      ReplayHead(c, server, q[..|q| - 1]);
      assert q[1..][..|q| - 2] == q[..|q| - 1][1..];
    }
  }

  /** A server that differs only on `d` leads to the same answer on every other channel, and on `d` if `q` mentions it. */
  lemma {:induction false} ReplayOther(c: Channel, server: set<Channel>, server': set<Channel>, q: seq<Command>)
    requires c in server <==> c in server'
    ensures InReplay(c, server, q) == InReplay(c, server', q)
  {
    if q != [] {
      ReplayOther(c, server, server', q[..|q| - 1]);
    }
  }

  lemma {:induction false} ReplayUntouched(c: Channel, server: set<Channel>, q: seq<Command>)
    requires forall j :: 0 <= j < |q| ==> q[j].channel != c
    ensures InReplay(c, server, q) <==> c in server
  {
    if q != [] {
      ReplayUntouched(c, server, q[..|q| - 1]);
    }
  }

  /** Once the queue mentions the channel, the present server no longer matters. */
  lemma {:induction false} ReplayMentioned(c: Channel, server: set<Channel>, server': set<Channel>, q: seq<Command>)
    requires Mentions(q, c)
    ensures InReplay(c, server, q) == InReplay(c, server', q)
  {
    if q[|q| - 1].channel != c {
      var j :| 0 <= j < |q| && q[j].channel == c;
      assert q[..|q| - 1][j].channel == c;
      ReplayMentioned(c, server, server', q[..|q| - 1]);
    }
  }

  // ----- A new call -----

  lemma CallKeepsListeners(s: State, c: Channel, x: Callback)
    requires Inv(s) && x !in s.used
    ensures ListenersInv(Step(s, Call(c, x)))
  {
    hide FramesInv, QueueInv, ReplayInv, LiveInv, NoDuplicates;
    CallListeners(s, c, x);
  }

  lemma CallKeepsLive(s: State, c: Channel, x: Callback)
    requires Inv(s) && x !in s.used
    ensures LiveInv(Step(s, Call(c, x)))
  {
    hide FramesInv, QueueInv, ReplayInv, ListenersInv, NoDuplicates, With;
    CallListeners(s, c, x);
  }

  lemma CallListeners(s: State, c: Channel, x: Callback)
    requires Inv(s) && x !in s.used
    ensures forall y :: y in With(Listeners(s.m, c), x) <==> y in Listeners(s.m, c) || y == x
    ensures NoDuplicates(With(Listeners(s.m, c), x)) && With(Listeners(s.m, c), x) != []
    ensures IsFirst(s.m, c, x) <==> c !in s.m.listeners
    ensures x !in s.teardowns && x !in s.tornDown
  {
    WithProps(Listeners(s.m, c), x);
  }

  /** A fresh callback is first on a channel exactly when the channel had no listeners. */
  lemma FirstMeansAbsent(s: State, c: Channel, x: Callback)
    requires Inv(s) && x !in s.used
    ensures IsFirst(s.m, c, x) <==> c !in s.m.listeners
    ensures IsFirst(s.m, c, x) ==> forall y :: !Awaiting(s, y, c)
  {
    WithProps(Listeners(s.m, c), x);
  }

  lemma CallKeepsFrames(s: State, c: Channel, x: Callback)
    requires Inv(s) && x !in s.used
    ensures FramesInv(Step(s, Call(c, x)))
  {
    FirstMeansAbsent(s, c, x);
    WithProps(Listeners(s.m, c), x);
    var s' := Step(s, Call(c, x));
    forall d ensures d in s'.m.subscribing <==> exists y :: Awaiting(s', y, d) {
      if y :| Awaiting(s, y, d) { assert Awaiting(s', y, d); }
      if IsFirst(s.m, c, x) { assert Awaiting(s', x, c); }
      if y :| Awaiting(s', y, d) { assert y == x || Awaiting(s, y, d); }
    }
    forall y, z, d | Awaiting(s', y, d) && Awaiting(s', z, d) ensures y == z {
      assert y == x || Awaiting(s, y, d);
      assert z == x || Awaiting(s, z, d);
    }
  }

  lemma CallKeepsQueue(s: State, c: Channel, x: Callback)
    requires Inv(s) && x !in s.used
    ensures QueueInv(Step(s, Call(c, x)))
  {
    FirstMeansAbsent(s, c, x);
    var s', q := Step(s, Call(c, x)), s.m.queue;
    if IsFirst(s.m, c, x) {
      forall i | 0 <= i < |q| ensures (q + [Subscribe(c, x)])[..i] == q[..i] {}
      assert (q + [Subscribe(c, x)])[..|q|] == q;
      forall i | 0 <= i < |q| && q[i].Subscribe? ensures q[i].channel != c {
        assert Awaiting(s, q[i].caller, q[i].channel);
      }
    }
  }

  lemma CallKeepsReplay(s: State, c: Channel, x: Callback)
    requires Inv(s) && x !in s.used
    ensures ReplayInv(Step(s, Call(c, x)))
  {
    FirstMeansAbsent(s, c, x);
    var s' := Step(s, Call(c, x));
    forall d | d !in s'.stuck || Mentions(s'.m.queue, d)
      ensures InReplay(d, s'.server, s'.m.queue) <==> d in s'.m.listeners && !FailurePending(s', d)
    {
      if IsFirst(s.m, c, x) {
        ReplayAppend(d, s.server, s.m.queue, Subscribe(c, x));
        assert d == c || d !in s'.stuck || Mentions(s.m.queue, d);
      }
      SamePending(s, s', d, x);
    }
  }

  /** Pending failures stay the same when the frames differ only by a call still waiting for its reply. */
  lemma SamePending(s: State, s': State, d: Channel, x: Callback)
    requires x !in s.frames
    requires s'.frames == s.frames || (x in s'.frames && s'.frames[x].status == Sent && s'.frames - {x} == s.frames)
    ensures FailurePending(s', d) <==> FailurePending(s, d)
  {
    if y :| Awaiting(s, y, d) && s.frames[y].status == Settled(false) {
      assert y in s'.frames - {x} || s'.frames == s.frames;
      assert Awaiting(s', y, d) && s'.frames[y] == s.frames[y];
    }
    if y :| Awaiting(s', y, d) && s'.frames[y].status == Settled(false) {
      assert y in s'.frames - {x} || s'.frames == s.frames;
      assert Awaiting(s, y, d) && s'.frames[y] == s.frames[y];
    }
  }

  // ----- Redis executes a command -----

  lemma ExecuteKeepsListeners(s: State, ok: bool)
    requires Inv(s) && s.m.queue != []
    ensures ListenersInv(ExecuteHead(s, ok)) && LiveInv(ExecuteHead(s, ok))
  {
  }

  lemma SameAwaiting(s: State, ok: bool)
    requires QueueInv(s) && s.m.queue != []
    ensures forall x, c :: Awaiting(ExecuteHead(s, ok), x, c) <==> Awaiting(s, x, c)
  {
    assert s.m.queue[0].Subscribe? ==> s.m.queue[0].caller in s.frames;
  }

  lemma ExecuteKeepsFrames(s: State, ok: bool)
    requires Inv(s) && s.m.queue != []
    ensures FramesInv(ExecuteHead(s, ok))
  {
    SameAwaiting(s, ok);
    var s' := ExecuteHead(s, ok);
    forall x | x in s'.frames ensures Awaiting(s, x, s'.frames[x].channel) {
      assert Awaiting(s', x, s'.frames[x].channel);
    }
    forall c ensures c in s'.m.subscribing <==> exists x :: Awaiting(s', x, c) {
      if x :| Awaiting(s, x, c) { assert Awaiting(s', x, c); }
      if x :| Awaiting(s', x, c) { assert Awaiting(s, x, c); }
    }
  }

  /** What the rest of the queue sees of the executed head on any channel but its own, or on success. */
  lemma ReplayAfterHead(s: State, ok: bool, c: Channel, n: nat)
    requires 0 < n <= |s.m.queue| && (ok || s.m.queue[0].channel != c)
    ensures InReplay(c, ExecuteHead(s, ok).server, s.m.queue[1..n]) == InReplay(c, s.server, s.m.queue[..n])
  {
    var q := s.m.queue;
    var after := Executed(s.server, q[0]);
    ReplayHead(c, s.server, q[..n]);
    assert q[..n][1..] == q[1..n] && q[..n][0] == q[0];
    ReplayOther(c, after, ExecuteHead(s, ok).server, q[1..n]);
  }

  lemma ExecuteKeepsQueue(s: State, ok: bool)
    requires Inv(s) && s.m.queue != []
    ensures QueueInv(ExecuteHead(s, ok))
  {
    hide ListenersInv, LiveInv, ReplayInv, FramesInv, InReplay;
    var s', q := ExecuteHead(s, ok), s.m.queue;
    var r := q[1..];
    assert forall i :: 0 <= i < |r| ==> r[i] == q[i + 1] && r[..i] == q[1..i + 1];
    forall i | 0 <= i < |r| && r[i].Subscribe?
      ensures r[i].caller in s'.frames && s'.frames[r[i].caller] == Frame(r[i].channel, Sent)
      ensures forall j :: i < j < |r| ==> r[j].channel != r[i].channel
      ensures r[i].channel !in s'.stuck ==> !InReplay(r[i].channel, s'.server, r[..i])
    {
      assert r[i] == q[i + 1];
      assert q[0].Subscribe? ==> q[i + 1].channel != q[0].channel;
      if r[i].channel !in s'.stuck {
        QueuedStaysAbsent(s, ok, i + 1);
      }
    }
  }

  lemma QueuedStaysAbsent(s: State, ok: bool, i: nat)
    requires Inv(s) && 0 < i < |s.m.queue| && s.m.queue[i].Subscribe?
    requires s.m.queue[i].channel !in ExecuteHead(s, ok).stuck
    ensures !InReplay(s.m.queue[i].channel, ExecuteHead(s, ok).server, s.m.queue[1..i])
  {
    var q, c := s.m.queue, s.m.queue[i].channel;
    if q[0].channel != c {
      ReplayAfterHead(s, ok, c, i);
    } else {
      // The head can only be a successful UNSUBSCRIBE of `c`; nothing in between subscribes `c` again.
      assert q[0].Unsubscribe? && ok;
      NoSubscribeBetween(s, c, i);
      StaysAbsent(c, ExecuteHead(s, ok).server, q[1..i]);
    }
  }

  lemma NoSubscribeBetween(s: State, c: Channel, i: nat)
    requires QueueInv(s) && 0 < i < |s.m.queue| && s.m.queue[i].channel == c
    ensures forall j :: 0 <= j < |s.m.queue[1..i]| && s.m.queue[1..i][j].channel == c ==> s.m.queue[1..i][j].Unsubscribe?
  {
    forall j | 0 <= j < i - 1 && s.m.queue[1..i][j].channel == c ensures s.m.queue[1..i][j].Unsubscribe? {
      assert s.m.queue[1..i][j] == s.m.queue[j + 1];
    }
  }

  lemma {:induction false} StaysAbsent(c: Channel, server: set<Channel>, q: seq<Command>)
    requires c !in server
    requires forall j :: 0 <= j < |q| && q[j].channel == c ==> q[j].Unsubscribe?
    ensures !InReplay(c, server, q)
  {
    if q != [] {
      StaysAbsent(c, server, q[..|q| - 1]);
    }
  }

  lemma ExecuteKeepsReplay(s: State, ok: bool)
    requires Inv(s) && s.m.queue != []
    ensures ReplayInv(ExecuteHead(s, ok))
  {
    var s', q := ExecuteHead(s, ok), s.m.queue;
    forall c | c !in s'.stuck || Mentions(s'.m.queue, c)
      ensures InReplay(c, s'.server, s'.m.queue) <==> c in s'.m.listeners && !FailurePending(s', c)
    {
      ReplayOfChannel(s, ok, c);
    }
  }

  /** Pending failures change only on the channel of an executed SUBSCRIBE. */
  lemma PendingAfterExecute(s: State, ok: bool, c: Channel)
    requires FramesInv(s) && QueueInv(s) && s.m.queue != []
    ensures FailurePending(ExecuteHead(s, ok), c)
        <==> if s.m.queue[0].Subscribe? && s.m.queue[0].channel == c then !ok else FailurePending(s, c)
  {
    SameAwaiting(s, ok);
    var s', q := ExecuteHead(s, ok), s.m.queue;
    if q[0].Subscribe? && q[0].channel == c {
      assert Awaiting(s, q[0].caller, c) && Awaiting(s', q[0].caller, c);
      if x :| Awaiting(s', x, c) && s'.frames[x].status == Settled(false) {
        assert Awaiting(s, x, c);
      }
    } else {
      if x :| Awaiting(s', x, c) && s'.frames[x].status == Settled(false) {
        assert Awaiting(s, x, c) && s.frames[x] == s'.frames[x];
      }
      if x :| Awaiting(s, x, c) && s.frames[x].status == Settled(false) {
        assert Awaiting(s', x, c) && s.frames[x] == s'.frames[x];
      }
    }
  }

  lemma ReplayOfChannel(s: State, ok: bool, c: Channel)
    requires Inv(s) && s.m.queue != []
    requires c !in ExecuteHead(s, ok).stuck || Mentions(s.m.queue[1..], c)
    ensures var s' := ExecuteHead(s, ok);
      InReplay(c, s'.server, s'.m.queue) <==> c in s'.m.listeners && !FailurePending(s', c)
  {
    hide ListenersInv, LiveInv, FailurePending, Mentions;
    var s', q := ExecuteHead(s, ok), s.m.queue;
    PendingAfterExecute(s, ok, c);
    TailMentions(q, c);
    if q[0].channel != c {
      assert q[..|q|] == q;
      ReplayAfterHead(s, ok, c, |q|);
    } else {
      ReplayHead(c, s.server, q);
      if Mentions(q[1..], c) {
        LastSubscribe(s, c);
        ReplayMentioned(c, s'.server, Executed(s.server, q[0]), q[1..]);
      } else {
        NotMentioned(q[1..], c);
        ReplayUntouched(c, s'.server, q[1..]);
        ReplayUntouched(c, Executed(s.server, q[0]), q[1..]);
        assert q[..0] == [];
        assert q[0].Subscribe? ==> Awaiting(s, q[0].caller, c);
      }
    }
  }

  lemma TailMentions(q: seq<Command>, c: Channel)
    requires q != []
    ensures Mentions(q, c) <==> q[0].channel == c || Mentions(q[1..], c)
  {
    if j :| 0 <= j < |q| && q[j].channel == c {
      assert j == 0 || q[1..][j - 1].channel == c;
    }
    if j :| 0 <= j < |q[1..]| && q[1..][j].channel == c {
      assert q[j + 1].channel == c;
    }
  }

  lemma NotMentioned(q: seq<Command>, c: Channel)
    requires !Mentions(q, c)
    ensures forall j :: 0 <= j < |q| ==> q[j].channel != c
  {
  }

  /** No command follows a queued SUBSCRIBE on its channel. */
  lemma LastSubscribe(s: State, c: Channel)
    requires QueueInv(s) && s.m.queue != [] && s.m.queue[0].channel == c && Mentions(s.m.queue[1..], c)
    ensures s.m.queue[0].Unsubscribe?
  {
    var j :| 0 <= j < |s.m.queue[1..]| && s.m.queue[1..][j].channel == c;
    assert s.m.queue[j + 1].channel == c;
  }

  // ----- A suspended call resumes -----

  lemma ResumeKeepsListeners(s: State, x: Callback)
    requires Inv(s) && Enabled(s, Resume(x))
    ensures ListenersInv(Step(s, Resume(x))) && LiveInv(Step(s, Resume(x)))
  {
    hide QueueInv, ReplayInv, NoDuplicates;
  }

  lemma ResumeKeepsQueue(s: State, x: Callback)
    requires Inv(s) && Enabled(s, Resume(x))
    ensures QueueInv(Step(s, Resume(x)))
  {
    hide ListenersInv, LiveInv, ReplayInv, FramesInv;
    var s' := Step(s, Resume(x));
    forall i | 0 <= i < |s.m.queue| && s.m.queue[i].Subscribe? ensures s.m.queue[i].caller in s'.frames {
      assert s.frames[s.m.queue[i].caller].status == Sent;
    }
  }

  lemma ResumeKeepsFrames(s: State, x: Callback)
    requires Inv(s) && Enabled(s, Resume(x))
    ensures FramesInv(Step(s, Resume(x)))
  {
    hide ListenersInv, LiveInv, QueueInv, ReplayInv;
    var s', c := Step(s, Resume(x)), s.frames[x].channel;
    assert Awaiting(s, x, c);
    forall y | y in s'.frames ensures y in s.frames && s.frames[y] == s'.frames[y] && s.frames[y].channel != c {
      assert s.frames[y].channel == c ==> Awaiting(s, y, c);
    }
    forall d ensures d in s'.m.subscribing <==> exists y :: Awaiting(s', y, d) {
      MarkAfterResume(s, x, d);
    }
    forall y, z, d | Awaiting(s', y, d) && Awaiting(s', z, d) ensures y == z {
      assert Awaiting(s, y, d) && Awaiting(s, z, d);
    }
  }

  lemma MarkAfterResume(s: State, x: Callback, d: Channel)
    requires FramesInv(s) && Enabled(s, Resume(x))
    ensures var s' := Step(s, Resume(x)); d in s'.m.subscribing <==> exists y :: Awaiting(s', y, d)
  {
    var s' := Step(s, Resume(x));
    assert Awaiting(s, x, s.frames[x].channel);
    if y :| Awaiting(s', y, d) { assert Awaiting(s, y, d); }
    if d != s.frames[x].channel {
      if y :| Awaiting(s, y, d) { assert Awaiting(s', y, d); }
    }
  }

  lemma ResumeKeepsReplay(s: State, x: Callback)
    requires Inv(s) && Enabled(s, Resume(x))
    ensures ReplayInv(Step(s, Resume(x)))
  {
    hide ListenersInv, LiveInv, QueueInv, FramesInv, InReplay, Mentions, FailurePending;
    var s' := Step(s, Resume(x));
    forall d | d !in s'.stuck || Mentions(s'.m.queue, d)
      ensures InReplay(d, s'.server, s'.m.queue) <==> d in s'.m.listeners && !FailurePending(s', d)
    {
      PendingAfterResume(s, x, d);
    }
  }

  lemma PendingAfterResume(s: State, x: Callback, d: Channel)
    requires FramesInv(s) && Enabled(s, Resume(x))
    ensures FailurePending(Step(s, Resume(x)), d) <==> d != s.frames[x].channel && FailurePending(s, d)
    ensures d == s.frames[x].channel ==> (FailurePending(s, d) <==> !s.frames[x].status.ok) && d in s.m.listeners
  {
    var s' := Step(s, Resume(x));
    assert Awaiting(s, x, s.frames[x].channel);
    if y :| Awaiting(s', y, d) && s'.frames[y].status == Settled(false) {
      assert Awaiting(s, y, d) && s.frames[y] == s'.frames[y];
    }
    if y :| Awaiting(s, y, d) && s.frames[y].status == Settled(false) {
      assert y == x || (Awaiting(s', y, d) && s'.frames[y] == s.frames[y]);
    }
  }

  // ----- A teardown is called -----

  lemma TeardownListeners(s: State, x: Callback)
    requires ListenersInv(s) && Enabled(s, Teardown(x))
    ensures var s' := Step(s, Teardown(x));
      && (forall c, y :: c in s'.m.listeners && y in s'.m.listeners[c] ==> c in s.m.listeners && y in s.m.listeners[c] && y != x)
      && (forall c, y :: c in s.m.listeners && y in s.m.listeners[c] && y != x ==> c in s'.m.listeners && y in s'.m.listeners[c])
      && (forall c :: c in s'.m.listeners ==> c in s.m.listeners && s'.m.listeners[c] != [] && NoDuplicates(s'.m.listeners[c]))
  {
    if s.used[x] in s.m.listeners {
      WithoutProps(s.m.listeners[s.used[x]], x);
    }
  }

  lemma TeardownKeepsListeners(s: State, x: Callback)
    requires Inv(s) && Enabled(s, Teardown(x))
    ensures ListenersInv(Step(s, Teardown(x))) && LiveInv(Step(s, Teardown(x)))
  {
    hide Without, NoDuplicates, FramesInv, QueueInv, ReplayInv;
    TeardownListeners(s, x);
  }

  /** While a call is suspended its channel keeps its callback, so no teardown empties the channel. */
  lemma TeardownSparesAwaited(s: State, x: Callback)
    requires Inv(s) && Enabled(s, Teardown(x))
    ensures forall y :: Awaiting(s, y, s.used[x]) ==>
      var m := Step(s, Teardown(x)).m;
      m.queue == s.m.queue && s.used[x] in m.listeners && y in m.listeners[s.used[x]]
  {
    if s.used[x] in s.m.listeners {
      WithoutProps(s.m.listeners[s.used[x]], x);
    }
  }

  lemma TeardownKeepsFrames(s: State, x: Callback)
    requires Inv(s) && Enabled(s, Teardown(x))
    ensures FramesInv(Step(s, Teardown(x)))
  {
    TeardownSparesAwaited(s, x);
    var s' := Step(s, Teardown(x));
    assert forall y, c :: Awaiting(s', y, c) <==> Awaiting(s, y, c);
    forall y | y in s'.frames ensures Awaiting(s, y, s.frames[y].channel) {
    }
    forall c ensures c in s'.m.subscribing <==> exists y :: Awaiting(s', y, c) {
      if y :| Awaiting(s, y, c) { assert Awaiting(s', y, c); }
      if y :| Awaiting(s', y, c) { assert Awaiting(s, y, c); }
    }
  }

  lemma TeardownKeepsQueue(s: State, x: Callback)
    requires Inv(s) && Enabled(s, Teardown(x))
    ensures QueueInv(Step(s, Teardown(x)))
  {
    hide ListenersInv, LiveInv, ReplayInv, InReplay, Without;
    TeardownSparesAwaited(s, x);
    var s', q := Step(s, Teardown(x)), s.m.queue;
    if s'.m.queue != q {
      assert s'.m.queue == q + [Unsubscribe(s.used[x])];
      assert forall i :: 0 <= i < |q| ==> s'.m.queue[..i] == q[..i];
      forall i | 0 <= i < |q| && q[i].Subscribe? ensures q[i].channel != s.used[x] {
        assert Awaiting(s, q[i].caller, q[i].channel);
      }
    }
  }

  lemma TeardownKeepsReplay(s: State, x: Callback)
    requires Inv(s) && Enabled(s, Teardown(x))
    ensures ReplayInv(Step(s, Teardown(x)))
  {
    var s', q := Step(s, Teardown(x)), s.m.queue;
    forall d | d !in s'.stuck || Mentions(s'.m.queue, d)
      ensures InReplay(d, s'.server, s'.m.queue) <==> d in s'.m.listeners && !FailurePending(s', d)
    {
      PendingUntouched(s, s', d);
      if s'.m.queue != q {
        ReplayAppend(d, s.server, q, Unsubscribe(s.used[x]));
        assert d == s.used[x] || d !in s'.stuck || Mentions(q, d);
      }
    }
  }

  lemma PendingUntouched(s: State, s': State, d: Channel)
    requires s'.frames == s.frames
    ensures FailurePending(s', d) <==> FailurePending(s, d)
  {
    if y :| Awaiting(s, y, d) && s.frames[y].status == Settled(false) { assert Awaiting(s', y, d); }
    if y :| Awaiting(s', y, d) && s'.frames[y].status == Settled(false) { assert Awaiting(s, y, d); }
  }

  // ----- A failed UNSUBSCRIBE -----

  /** The channel lost an UNSUBSCRIBE, and no command that would settle it is on its way. */
  predicate Leaks(s: State, c: Channel) {
    c in s.stuck && !Mentions(s.m.queue, c)
  }

  /** A queued UNSUBSCRIBE finds its channel held, so one that fails leaves it held. */
  predicate HeldInv(s: State) {
    && s.stuck <= s.server
    && forall i :: 0 <= i < |s.m.queue| && s.m.queue[i].Unsubscribe? ==> InReplay(s.m.queue[i].channel, s.server, s.m.queue[..i])
  }

  /** Nobody listens on a leaking channel, but for the callers of a SUBSCRIBE that failed as well. */
  ghost predicate LeakInv(s: State) {
    forall c :: Leaks(s, c) && c in s.m.listeners ==> FailurePending(s, c)
  }

  lemma CallKeepsLeaks(s: State, c: Channel, x: Callback)
    requires Inv(s) && HeldInv(s) && LeakInv(s) && x !in s.used
    ensures HeldInv(Step(s, Call(c, x))) && LeakInv(Step(s, Call(c, x)))
  {
    hide ListenersInv, LiveInv, QueueInv, ReplayInv, InReplay, FailurePending;
    FirstMeansAbsent(s, c, x);
    var s', q := Step(s, Call(c, x)), s.m.queue;
    assert forall i :: 0 <= i < |q| ==> (q + [Subscribe(c, x)])[..i] == q[..i];
    forall d | Leaks(s', d) && d in s'.m.listeners ensures FailurePending(s', d) {
      MentionsAppend(q, Subscribe(c, x), d);
      SamePending(s, s', d, x);
    }
  }

  lemma MentionsAppend(q: seq<Command>, cmd: Command, d: Channel)
    ensures Mentions(q + [cmd], d) <==> Mentions(q, d) || cmd.channel == d
  {
    var r := q + [cmd];
    assert r[|q|] == cmd;
    if j :| 0 <= j < |q| && q[j].channel == d { assert r[j].channel == d; }
  }

  lemma ExecuteKeepsHeld(s: State, ok: bool)
    requires Inv(s) && HeldInv(s) && s.m.queue != []
    ensures HeldInv(ExecuteHead(s, ok))
  {
    hide ListenersInv, LiveInv, FramesInv, ReplayInv, QueueInv;
    assert QueueInv(s);
    var s', q := ExecuteHead(s, ok), s.m.queue;
    assert q[..0] == [];
    assert forall i :: 0 <= i < |q| - 1 ==> q[1..][i] == q[i + 1] && q[1..][..i] == q[1..i + 1];
    forall i | 0 < i < |q| && q[i].Unsubscribe? ensures InReplay(q[i].channel, s'.server, q[1..i]) {
      NextUnsubscribeFinds(s, ok, i);
    }
  }

  lemma NextUnsubscribeFinds(s: State, ok: bool, i: nat)
    requires QueueInv(s) && HeldInv(s) && 0 < i < |s.m.queue| && s.m.queue[i].Unsubscribe?
    ensures InReplay(s.m.queue[i].channel, ExecuteHead(s, ok).server, s.m.queue[1..i])
  {
    var q, c := s.m.queue, s.m.queue[i].channel;
    if ok || q[0].channel != c {
      ReplayAfterHead(s, ok, c, i);
    } else {
      // Two UNSUBSCRIBEs with no SUBSCRIBE between them: the second would not find the channel.
      NoSubscribeBetween(s, c, i);
      ReplayHead(c, s.server, q[..i]);
      assert q[..i][1..] == q[1..i] && q[..i][0] == q[0];
      StaysAbsent(c, Executed(s.server, q[0]), q[1..i]);
      assert false;
    }
  }

  lemma ExecuteKeepsLeaks(s: State, ok: bool)
    requires Inv(s) && LeakInv(s) && s.m.queue != []
    ensures LeakInv(ExecuteHead(s, ok))
  {
    hide ListenersInv, LiveInv, FailurePending, Mentions, InReplay;
    var s', q := ExecuteHead(s, ok), s.m.queue;
    forall c | Leaks(s', c) && c in s'.m.listeners ensures FailurePending(s', c) {
      PendingAfterExecute(s, ok, c);
      TailMentions(q, c);
      if q[0] == Unsubscribe(c) {
        ReplayHead(c, s.server, q);
        NotMentioned(q[1..], c);
        ReplayUntouched(c, Executed(s.server, q[0]), q[1..]);
      }
    }
  }

  lemma ResumeKeepsLeaks(s: State, x: Callback)
    requires Inv(s) && HeldInv(s) && LeakInv(s) && Enabled(s, Resume(x))
    ensures HeldInv(Step(s, Resume(x))) && LeakInv(Step(s, Resume(x)))
  {
    hide ListenersInv, LiveInv, QueueInv, ReplayInv, FramesInv, InReplay, Mentions, FailurePending;
    var s' := Step(s, Resume(x));
    forall d | Leaks(s', d) && d in s'.m.listeners ensures FailurePending(s', d) {
      PendingAfterResume(s, x, d);
    }
  }

  lemma TeardownKeepsHeld(s: State, x: Callback)
    requires Inv(s) && HeldInv(s) && LeakInv(s) && Enabled(s, Teardown(x))
    ensures HeldInv(Step(s, Teardown(x)))
  {
    hide ListenersInv, LiveInv, QueueInv, FramesInv, InReplay, Mentions, Without;
    var s', q, c := Step(s, Teardown(x)), s.m.queue, s.used[x];
    TeardownSparesAwaited(s, x);
    if s'.m.queue != q {
      assert !FailurePending(s, c);
      assert InReplay(c, s.server, q);
      assert forall i :: 0 <= i < |q| ==> (q + [Unsubscribe(c)])[..i] == q[..i];
      assert (q + [Unsubscribe(c)])[..|q|] == q;
    }
  }

  lemma TeardownKeepsLeaks(s: State, x: Callback)
    requires Inv(s) && LeakInv(s) && Enabled(s, Teardown(x))
    ensures LeakInv(Step(s, Teardown(x)))
  {
    hide ListenersInv, LiveInv, QueueInv, FramesInv, ReplayInv, FailurePending, Without;
    var s', c := Step(s, Teardown(x)), s.used[x];
    forall d | Leaks(s', d) && d in s'.m.listeners ensures FailurePending(s', d) {
      MentionsAppend(s.m.queue, Unsubscribe(c), d);
      PendingUntouched(s, s', d);
    }
  }

  // ----- Every interleaving -----

  lemma StepKeepsInv(s: State, e: Event)
    requires Inv(s) && Enabled(s, e)
    ensures Inv(Step(s, e))
  {
    hide ListenersInv, FramesInv, QueueInv, ReplayInv, LiveInv, ExecuteHead;
    match e
    case Call(c, x) =>
      CallKeepsListeners(s, c, x);
      CallKeepsLive(s, c, x);
      CallKeepsFrames(s, c, x);
      CallKeepsQueue(s, c, x);
      CallKeepsReplay(s, c, x);
    case Execute(ok) =>
      ExecuteKeepsListeners(s, ok);
      ExecuteKeepsFrames(s, ok);
      ExecuteKeepsQueue(s, ok);
      ExecuteKeepsReplay(s, ok);
    case Resume(x) =>
      ResumeKeepsListeners(s, x);
      ResumeKeepsQueue(s, x);
      ResumeKeepsFrames(s, x);
      ResumeKeepsReplay(s, x);
    case Teardown(x) =>
      TeardownKeepsListeners(s, x);
      TeardownKeepsFrames(s, x);
      TeardownKeepsQueue(s, x);
      TeardownKeepsReplay(s, x);
  }

  /** Every interleaving of calls, executions, resumptions and teardowns keeps all of it. */
  lemma {:induction false} RunKeepsInv(events: seq<Event>)
    ensures Inv(Run(IDLE, events))
  {
    hide ListenersInv, FramesInv, QueueInv, ReplayInv, LiveInv, Step;
    if events == [] {
      IdleInv();
    } else {
      var front, e := events[..|events| - 1], events[|events| - 1];
      RunKeepsInv(front);
      if Enabled(Run(IDLE, front), e) {
        StepKeepsInv(Run(IDLE, front), e);
      }
    }
  }

  lemma StepKeepsLeaks(s: State, e: Event)
    requires Inv(s) && HeldInv(s) && LeakInv(s) && Enabled(s, e)
    ensures HeldInv(Step(s, e)) && LeakInv(Step(s, e))
  {
    hide ListenersInv, FramesInv, QueueInv, ReplayInv, LiveInv, HeldInv, LeakInv, ExecuteHead;
    match e
    case Call(c, x) => CallKeepsLeaks(s, c, x);
    case Execute(ok) =>
      ExecuteKeepsHeld(s, ok);
      ExecuteKeepsLeaks(s, ok);
    case Resume(x) => ResumeKeepsLeaks(s, x);
    case Teardown(x) =>
      TeardownKeepsHeld(s, x);
      TeardownKeepsLeaks(s, x);
  }

  lemma {:induction false} RunKeepsLeaks(events: seq<Event>)
    ensures HeldInv(Run(IDLE, events)) && LeakInv(Run(IDLE, events))
  {
    hide Inv, HeldInv, LeakInv, Step;
    if events == [] {
      assert HeldInv(IDLE) && LeakInv(IDLE) by { IdleHasNoLeak(); }
    } else {
      var front, e := events[..|events| - 1], events[|events| - 1];
      RunKeepsLeaks(front);
      RunKeepsInv(front);
      if Enabled(Run(IDLE, front), e) {
        StepKeepsLeaks(Run(IDLE, front), e);
      }
    }
  }

  lemma IdleHasNoLeak()
    ensures HeldInv(IDLE) && LeakInv(IDLE)
  {
  }

  lemma IdleInv()
    ensures Inv(IDLE)
  {
    assert forall x, c :: !Awaiting(IDLE, x, c);
  }

  /**
   * The headline: replaying the queued commands gives the listened channels, less the failures still to be handled,
   * exactly on the channels that do not leak. On a leaking channel Redis keeps sending to nobody.
   */
  lemma ReplayIsListeners(events: seq<Event>, c: Channel)
    ensures var s := Run(IDLE, events);
      (InReplay(c, s.server, s.m.queue) <==> c in s.m.listeners && !FailurePending(s, c)) <==> !Leaks(s, c)
    ensures var s := Run(IDLE, events);
      c in s.m.listeners ==> s.m.listeners[c] != [] && NoDuplicates(s.m.listeners[c])
  {
    hide FramesInv, QueueInv, LiveInv, FailurePending;
    RunKeepsInv(events);
    RunKeepsLeaks(events);
    var s := Run(IDLE, events);
    if Leaks(s, c) {
      NotMentioned(s.m.queue, c);
      ReplayUntouched(c, s.server, s.m.queue);
    }
  }

  /** At most one SUBSCRIBE per channel is in flight: neither two queued commands nor two suspended calls share a channel. */
  lemma OneSubscribeInFlight(events: seq<Event>, i: nat, j: nat, x: Callback, y: Callback, c: Channel)
    ensures var s := Run(IDLE, events);
      i < j < |s.m.queue| && s.m.queue[i].Subscribe? && s.m.queue[j].Subscribe? ==> s.m.queue[i].channel != s.m.queue[j].channel
    ensures var s := Run(IDLE, events);
      Awaiting(s, x, c) && Awaiting(s, y, c) ==> x == y
    ensures var s := Run(IDLE, events);
      (c in s.m.subscribing <==> exists z :: Awaiting(s, z, c))
  {
    RunKeepsInv(events);
  }

  /** One caller subscribed and returned. */
  lemma OneSubscribed(c: Channel)
    ensures Run(IDLE, [Call(c, 1), Execute(true), Resume(1)])
         == State(Manager(true, map[c := [1]], map[], []), {c}, map[], map[1 := c], {1}, {}, {})
  {
    var e1, e2, e3 := Call(c, 1), Execute(true), Resume(1);
    assert [] + [e1] == [e1] && [e1] + [e2] == [e1, e2] && [e1, e2] + [e3] == [e1, e2, e3];
    RunLast(IDLE, [], e1);
    RunLast(IDLE, [e1], e2);
    RunLast(IDLE, [e1, e2], e3);
    assert With(Listeners(IDLE.m, c), 1) == [1];
  }

  /** A leak takes no more than one subscriber, one teardown, and an UNSUBSCRIBE that fails. */
  lemma FailedUnsubscribeLeaks(c: Channel)
    ensures Leaks(Run(IDLE, [Call(c, 1), Execute(true), Resume(1), Teardown(1), Execute(false)]), c)
  {
    hide Run;
    var three, e4, e5 := [Call(c, 1), Execute(true), Resume(1)], Teardown(1), Execute(false);
    OneSubscribed(c);
    RunLast(IDLE, three, e4);
    RunLast(IDLE, three + [e4], e5);
    assert three + [e4] + [e5] == [Call(c, 1), Execute(true), Resume(1), Teardown(1), Execute(false)];
    assert Without([1], 1) == [];
    assert Run(IDLE, three + [e4]).m.queue == [Unsubscribe(c)];
  }

  /** When nothing is in flight, the server holds the listened channels and, apart from them, those that leak. */
  lemma QuietServerMatches(events: seq<Event>)
    requires var s := Run(IDLE, events); s.m.queue == [] && s.frames == map[]
    ensures var s := Run(IDLE, events);
      s.server == s.m.listeners.Keys + s.stuck && s.m.listeners.Keys !! s.stuck
  {
    hide FramesInv, QueueInv, LiveInv, ListenersInv;
    RunKeepsInv(events);
    RunKeepsLeaks(events);
    var s := Run(IDLE, events);
    assert forall c, x :: !Awaiting(s, x, c);
    forall c ensures c in s.server <==> c in s.m.listeners || c in s.stuck {
      assert c !in s.stuck ==> (InReplay(c, s.server, []) <==> c in s.m.listeners);
    }
  }

  /** Once torn down, a callback is never listening again, and calling its teardown again changes nothing. */
  lemma TeardownIsIdempotent(before: seq<Event>, x: Callback, after: seq<Event>)
    requires Enabled(Run(IDLE, before), Teardown(x))
    ensures var s := Run(Step(Run(IDLE, before), Teardown(x)), after);
      && Enabled(s, Teardown(x)) && Step(s, Teardown(x)) == s
      && forall c :: c in s.m.listeners ==> x !in s.m.listeners[c]
  {
    RunKeepsInv(before);
    StepKeepsInv(Run(IDLE, before), Teardown(x));
    StaysTornDown(Step(Run(IDLE, before), Teardown(x)), x, after);
  }

  lemma {:induction false} StaysTornDown(s: State, x: Callback, after: seq<Event>)
    requires Inv(s) && x in s.tornDown
    ensures var s' := Run(s, after);
      && Inv(s') && x in s'.tornDown && Enabled(s', Teardown(x)) && Step(s', Teardown(x)) == s'
      && forall c :: c in s'.m.listeners ==> x !in s'.m.listeners[c]
  {
    if after == [] {
      SecondTeardown(s, x);
    } else {
      var front, e := after[..|after| - 1], after[|after| - 1];
      StaysTornDown(s, x, front);
      var t := Run(s, front);
      if Enabled(t, e) {
        NextAfterTeardown(t, x, e);
      }
    }
  }

  lemma NextAfterTeardown(t: State, x: Callback, e: Event)
    requires Inv(t) && x in t.tornDown && Enabled(t, e)
    ensures var s := Step(t, e);
      && Inv(s) && x in s.tornDown && Enabled(s, Teardown(x)) && Step(s, Teardown(x)) == s
      && forall c :: c in s.m.listeners ==> x !in s.m.listeners[c]
  {
    StepKeepsInv(t, e);
    assert x in Step(t, e).tornDown;
    SecondTeardown(Step(t, e), x);
  }

  lemma SecondTeardown(s: State, x: Callback)
    requires Inv(s) && x in s.tornDown
    ensures Enabled(s, Teardown(x)) && Step(s, Teardown(x)) == s
    ensures forall c :: c in s.m.listeners ==> x !in s.m.listeners[c]
  {
    var c := s.used[x];
    if c in s.m.listeners {
      WithoutProps(s.m.listeners[c], x);
      assert s.m.listeners[c := s.m.listeners[c]] == s.m.listeners;
    }
    assert s.tornDown + {x} == s.tornDown;
  }

  predicate Listens(s: State, x: Callback) {
    x in s.used && s.used[x] in s.m.listeners && x in s.m.listeners[s.used[x]]
  }

  /** The event is the handling of a failed SUBSCRIBE on the channel of `x`, which called before. */
  predicate Loses(s: State, e: Event, x: Callback) {
    && e.Resume? && Enabled(s, e) && !s.frames[e.callback].status.ok
    && x in s.used && s.used[x] == s.frames[e.callback].channel
  }

  /** Since `x` called subscribe, a SUBSCRIBE on its channel has failed, its own or that of another caller. */
  predicate LostSince(events: seq<Event>, x: Callback) {
    events != [] &&
    var front := events[..|events| - 1];
    LostSince(front, x) || Loses(Run(IDLE, front), events[|events| - 1], x)
  }

  lemma CallListens(s: State, c: Channel, x: Callback, y: Callback)
    requires Inv(s) && x !in s.used
    ensures var s' := Step(s, Call(c, x));
      && (Listens(s', y) <==> Listens(s, y) || y == x) && (y in s'.used <==> y in s.used || y == x)
      && s'.tornDown == s.tornDown && x !in s.tornDown
  {
    hide FramesInv, QueueInv, ReplayInv, NoDuplicates, With;
    CallListeners(s, c, x);
  }

  lemma ExecuteListens(s: State, ok: bool, y: Callback)
    requires s.m.queue != []
    ensures var s' := ExecuteHead(s, ok);
      (Listens(s', y) <==> Listens(s, y)) && s'.used == s.used && s'.tornDown == s.tornDown
  {
  }

  lemma ResumeListens(s: State, x: Callback, y: Callback)
    requires Inv(s) && Enabled(s, Resume(x))
    ensures var s' := Step(s, Resume(x));
      && (Listens(s', y) <==> Listens(s, y) && !Loses(s, Resume(x), y)) && s'.used == s.used && s'.tornDown == s.tornDown
  {
  }

  lemma TeardownListens(s: State, x: Callback, y: Callback)
    requires Inv(s) && Enabled(s, Teardown(x))
    ensures var s' := Step(s, Teardown(x));
      && (Listens(s', y) <==> Listens(s, y) && y != x) && s'.used == s.used && s'.tornDown == s.tornDown + {x}
  {
    hide FramesInv, QueueInv, ReplayInv, LiveInv, NoDuplicates, Without;
    TeardownListeners(s, x);
  }

  /** What one event does to who listens. */
  lemma StepListens(s: State, e: Event, y: Callback)
    requires Inv(s) && Enabled(s, e)
    ensures Listens(Step(s, e), y) <==> (Listens(s, y) && !Loses(s, e, y) && e != Teardown(y)) || (e.Call? && e.callback == y)
    ensures y in Step(s, e).used <==> y in s.used || (e.Call? && e.callback == y)
    ensures y in Step(s, e).tornDown <==> y in s.tornDown || e == Teardown(y)
    ensures e.Call? && e.callback == y ==> y !in s.used && y !in s.tornDown
    ensures Loses(s, e, y) ==> y in s.used
  {
    hide Inv, Listens, ExecuteHead;
    match e
    case Call(c, x) => CallListens(s, c, x, y);
    case Execute(ok) => ExecuteListens(s, ok, y);
    case Resume(x) => ResumeListens(s, x, y);
    case Teardown(x) => TeardownListens(s, x, y);
  }

  /**
   * Who a message reaches: a callback that called subscribe listens exactly if it was not torn down
   * and no SUBSCRIBE on its channel has failed since its call.
   */
  lemma {:induction false} FanOut(events: seq<Event>, x: Callback)
    ensures x in Run(IDLE, events).used ==> (Listens(Run(IDLE, events), x) <==> x !in Run(IDLE, events).tornDown && !LostSince(events, x))
    ensures x !in Run(IDLE, events).used ==> !LostSince(events, x)
  {
    hide Inv, Listens, Loses, Step;
    if events != [] {
      var front, e := events[..|events| - 1], events[|events| - 1];
      FanOut(front, x);
      RunKeepsInv(front);
      if Enabled(Run(IDLE, front), e) {
        StepListens(Run(IDLE, front), e, x);
      } else {
        assert !Loses(Run(IDLE, front), e, x) by { CannotLose(Run(IDLE, front), e, x); }
      }
    }
  }

  lemma CannotLose(s: State, e: Event, x: Callback)
    requires !Enabled(s, e)
    ensures !Loses(s, e, x)
  {
  }

  /** A message reaches only callbacks that called subscribe on its channel. */
  lemma ReachesOwnChannel(events: seq<Event>, c: Channel, x: Callback)
    requires x in Listeners(Run(IDLE, events).m, c)
    ensures x in Run(IDLE, events).used && Run(IDLE, events).used[x] == c && Listens(Run(IDLE, events), x)
  {
    RunKeepsInv(events);
  }

  /** The position just after the call of `x`. */
  function CalledAt(events: seq<Event>, x: Callback): nat {
    if events == [] then 0
    else
      var front, e := events[..|events| - 1], events[|events| - 1];
      if e.Call? && e.callback == x && Enabled(Run(IDLE, front), e) then |events| else CalledAt(front, x)
  }

  predicate InCallOrder(events: seq<Event>, l: seq<Callback>) {
    forall i, j :: 0 <= i < j < |l| ==> CalledAt(events, l[i]) < CalledAt(events, l[j])
  }

  lemma {:induction false} CalledBefore(events: seq<Event>, x: Callback)
    ensures CalledAt(events, x) <= |events|
  {
    if events != [] {
      CalledBefore(events[..|events| - 1], x);
    }
  }

  lemma {:induction false} WithoutKeepsOrder(l: seq<Callback>, x: Callback, i: nat, j: nat) returns (i': nat, j': nat)
    requires i < j < |Without(l, x)|
    ensures i' < j' < |l| && l[i'] == Without(l, x)[i] && l[j'] == Without(l, x)[j]
  {
    if l[0] == x {
      i', j' := i + 1, j + 1;
    } else if i == 0 {
      i' := 0;
      j' := WithoutKeeps(l[1..], x, j - 1);
      j' := j' + 1;
    } else {
      i', j' := WithoutKeepsOrder(l[1..], x, i - 1, j - 1);
      i', j' := i' + 1, j' + 1;
    }
  }

  lemma {:induction false} WithoutKeeps(l: seq<Callback>, x: Callback, i: nat) returns (i': nat)
    requires i < |Without(l, x)|
    ensures i' < |l| && l[i'] == Without(l, x)[i]
  {
    if l[0] == x {
      i' := i + 1;
    } else if i == 0 {
      i' := 0;
    } else {
      i' := WithoutKeeps(l[1..], x, i - 1);
      i' := i' + 1;
    }
  }

  /** What an event makes of the listeners of a channel: as they were, one more at the end, or one less. */
  lemma ListAfter(s: State, e: Event, c: Channel)
    requires Inv(s) && Enabled(s, e)
    ensures var was, now := Listeners(s.m, c), Listeners(Step(s, e).m, c);
      now == was || now == [] || (e.Call? && now == was + [e.callback] && e.callback !in was) || (e.Teardown? && now == Without(was, e.callback))
  {
    hide FramesInv, QueueInv, ReplayInv, LiveInv, NoDuplicates;
  }

  /** The listeners of a channel stand, and so are called, in the order in which they called subscribe. */
  lemma {:induction false} ArrivalOrder(events: seq<Event>, c: Channel)
    ensures InCallOrder(events, Listeners(Run(IDLE, events).m, c))
  {
    hide Inv, Step, Without, Enabled, Listeners;
    if events == [] {
      assert Listeners(IDLE.m, c) == [] by { NoListenersYet(c); }
    } else {
      var front, e := events[..|events| - 1], events[|events| - 1];
      var s := Run(IDLE, front);
      RunKeepsInv(front);
      ArrivalOrder(front, c);
      var was, now := Listeners(s.m, c), Listeners(Run(IDLE, events).m, c);
      if Enabled(s, e) {
        ListAfter(s, e, c);
        if e.Call? {
          forall x | x in was ensures x != e.callback { UsedBefore(s, e, c, x); }
        }
        assert events == front + [e];
        forall i, j | 0 <= i < j < |now| ensures CalledAt(events, now[i]) < CalledAt(events, now[j]) {
          OrderKept(front, e, was, now, i, j);
        }
      }
    }
  }

  lemma NoListenersYet(c: Channel)
    ensures Listeners(IDLE.m, c) == []
  {
  }

  lemma UsedBefore(s: State, e: Event, c: Channel, x: Callback)
    requires Inv(s) && Enabled(s, e) && e.Call? && x in Listeners(s.m, c)
    ensures x != e.callback
  {
  }

  lemma OrderKept(front: seq<Event>, e: Event, was: seq<Callback>, now: seq<Callback>, i: nat, j: nat)
    requires InCallOrder(front, was) && i < j < |now| && Enabled(Run(IDLE, front), e)
    requires e.Call? ==> e.callback !in was
    requires now == was || (e.Call? && now == was + [e.callback]) || (e.Teardown? && now == Without(was, e.callback))
    ensures CalledAt(front + [e], now[i]) < CalledAt(front + [e], now[j])
  {
    hide Inv, Run, Without, Enabled;
    var events := front + [e];
    assert events[..|front|] == front && events[|front|] == e;
    CalledBefore(front, now[i]);
    if e.Teardown? && now != was {
      var i', j' := WithoutKeepsOrder(was, e.callback, i, j);
    }
  }

  /** A failed SUBSCRIBE also drops a second subscriber, whose own call had already returned. */
  lemma FailureDropsCoSubscriber(c: Channel)
    ensures var s := Run(IDLE, [Call(c, 1), Call(c, 2), Execute(false), Resume(1)]);
      && 2 in s.teardowns && 2 !in s.tornDown && Listeners(s.m, c) == []
  {
    var s1 := Step(IDLE, Call(c, 1));
    var s2 := Step(s1, Call(c, 2));
    var s3 := Step(s2, Execute(false));
    assert [] + [Call(c, 1)] == [Call(c, 1)];
    assert [Call(c, 1)] + [Call(c, 2)] == [Call(c, 1), Call(c, 2)];
    assert [Call(c, 1), Call(c, 2)] + [Execute(false)] == [Call(c, 1), Call(c, 2), Execute(false)];
    assert [Call(c, 1), Call(c, 2), Execute(false)] + [Resume(1)] == [Call(c, 1), Call(c, 2), Execute(false), Resume(1)];
    RunLast(IDLE, [], Call(c, 1));
    RunLast(IDLE, [Call(c, 1)], Call(c, 2));
    RunLast(IDLE, [Call(c, 1), Call(c, 2)], Execute(false));
    RunLast(IDLE, [Call(c, 1), Call(c, 2), Execute(false)], Resume(1));
    assert With(Listeners(IDLE.m, c), 1) == [1];
    assert With(Listeners(s1.m, c), 2) == [1, 2];
  }

  lemma RunLast(s: State, front: seq<Event>, e: Event)
    ensures Run(s, front + [e]) == if Enabled(Run(s, front), e) then Step(Run(s, front), e) else Run(s, front)
  {
    assert (front + [e])[..|front|] == front;
  }
}
