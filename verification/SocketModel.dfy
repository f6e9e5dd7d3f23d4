/**
 The shared socket's subscriptions as a state machine: what the client counts, which sockets
 exist, what each one's server has been told, and which hooks are mounted. Any number of connect
 attempts may be in flight, and a replaced socket lives on, its handlers still at work.
 */
module SocketModel {
  import opened Wrappers

  datatype ReadyState = Connecting | Open | Closing

  /** A socket that has not reported its close: its state, and what its server has been asked for. */
  datatype Socket = Socket(ready: ReadyState, server: set<string>)

  datatype State = State(
    sockets: map<nat, Socket>,         // numbered in the order they were made
    made: nat,                         // how many were ever made
    ws: Option<nat>,                   // the current socket, if any
    isOpen: bool,
    shouldRun: bool,
    attempts: nat,                     // connect attempts that wait for their token
    backoff: nat,
    lastTimer: bool,                   // the last reconnect timer set is pending
    olderTimers: nat,                  // so many set before it are pending
    subscriptions: map<string, nat>,   // reference counts by channel
    holders: multiset<string>)         // the channels of the mounted hooks

  const INITIAL: State := State(map[], 0, None, false, false, 0, 1000, false, 0, map[], multiset{})

  datatype Event =
    | Start
    | Stop
    | Mount(channel: Option<string>)
    | Unmount(channel: Option<string>)
    | TokenArrives(granted: bool)
    | Opened(id: nat)
    | Errored(id: nat)
    | Closed(id: nat)
    | TimerFires(last: bool)

  function Min(a: nat, b: nat): nat { if a <= b then a else b }

  /** What can happen: hooks unmount only if mounted, a socket's events need that socket, and a timer
      fires only if it is pending. */
  predicate Enabled(s: State, e: Event) {
    match e
    case Unmount(channel) => Named(channel) ==> channel.value in s.holders
    case TokenArrives(_) => s.attempts > 0
    case Opened(id) => id in s.sockets && s.sockets[id].ready == Connecting
    case Errored(id) => id in s.sockets
    case Closed(id) => id in s.sockets
    case TimerFires(last) => if last then s.lastTimer else s.olderTimers > 0
    case _ => true
  }

  // ----- the client's operations -----

  /** The state of the current socket. */
  function Current(s: State): Option<ReadyState> {
    if s.ws.Some? && s.ws.value in s.sockets then Some(s.sockets[s.ws.value].ready) else None
  }

  /** A message reaches a server only through the current socket, and only if that is open. */
  function Tell(s: State, channels: set<string>, subscribe: bool): State {
    if Current(s) != Some(Open) then s
    else
      var socket := s.sockets[s.ws.value];
      var server := if subscribe then socket.server + channels else socket.server - channels;
      s.(sockets := s.sockets[s.ws.value := socket.(server := server)])
  }

  /** What the current socket's server has been asked for. */
  function Server(s: State): set<string> {
    if s.ws.Some? && s.ws.value in s.sockets then s.sockets[s.ws.value].server else {}
  }

  function Count(subscriptions: map<string, nat>, channel: string): nat {
    if channel in subscriptions then subscriptions[channel] else 0
  }

  function CountUp(subscriptions: map<string, nat>, channel: string): map<string, nat> {
    subscriptions[channel := Count(subscriptions, channel) + 1]
  }

  function CountDown(subscriptions: map<string, nat>, channel: string): map<string, nat> {
    var n := Count(subscriptions, channel);
    if n <= 1 then subscriptions - {channel} else subscriptions[channel := n - 1]
  }

  function Add(s: State, channel: string): State {
    var counted := s.(subscriptions := CountUp(s.subscriptions, channel));
    if Count(s.subscriptions, channel) == 0 && s.isOpen then Tell(counted, {channel}, true) else counted
  }

  function RemoveSub(s: State, channel: string): State {
    var counted := s.(subscriptions := CountDown(s.subscriptions, channel));
    if Count(s.subscriptions, channel) <= 1 && s.isOpen then Tell(counted, {channel}, false) else counted
  }

  /** Begins an attempt unless there is a socket; an attempt already in flight does not matter. */
  function Connect(s: State): State {
    if !s.shouldRun || s.ws.Some? then s else s.(attempts := s.attempts + 1)
  }

  /** An attempt ends. With a token it makes a socket and puts it in the place of any other. */
  function Token(s: State, granted: bool): State
    requires s.attempts > 0
  {
    var ended := s.(attempts := s.attempts - 1);
    if !s.shouldRun || !granted then ended
    else ended.(sockets := s.sockets[s.made := Socket(Connecting, {})], made := s.made + 1, ws := Some(s.made))
  }

  function SetReady(s: State, id: nat, ready: ReadyState): State
    requires id in s.sockets
  {
    s.(sockets := s.sockets[id := s.sockets[id].(ready := ready)])
  }

  /** The open handler of a socket; what it sends goes to the current one. */
  function OnOpen(s: State, id: nat): State
    requires id in s.sockets
  {
    Tell(SetReady(s, id, Open).(isOpen := true, backoff := 1000), s.subscriptions.Keys, true)
  }

  /** The close handler of a socket forgets the current one, whichever that is, and while the session
      runs sets a timer for the next attempt. */
  function OnClose(s: State, id: nat): State {
    var closed := s.(sockets := s.sockets - {id}, isOpen := false, ws := None);
    if s.shouldRun
    then closed.(backoff := Min(s.backoff * 2, 15000), lastTimer := true,
                 olderTimers := s.olderTimers + if s.lastTimer then 1 else 0)
    else closed
  }

  /** A timer that fires begins an attempt. */
  function OnTimer(s: State, last: bool): State
    requires Enabled(s, TimerFires(last))
  {
    Connect(if last then s.(lastTimer := false) else s.(olderTimers := s.olderTimers - 1))
  }

  /** Stopping clears the last timer, but none set before it. */
  function StopSocket(s: State): State {
    var closing := if Current(s).Some? then SetReady(s, s.ws.value, Closing) else s;
    closing.(shouldRun := false, lastTimer := false, ws := None, isOpen := false, subscriptions := map[])
  }

  /** A hook without a channel, or with the empty one, holds no subscription. */
  predicate Named(channel: Option<string>) {
    channel.Some? && channel.value != ""
  }

  function Held(s: State, channel: string): State {
    Add(s, channel).(holders := s.holders + multiset{channel})
  }

  function Released(s: State, channel: string): State {
    RemoveSub(s, channel).(holders := s.holders - multiset{channel})
  }

  function Next(s: State, e: Event): State
    requires Enabled(s, e)
  {
    match e
    case Start => Connect(s.(shouldRun := true))
    case Stop => StopSocket(s)
    case Mount(channel) => Connect(if Named(channel) then Held(s, channel.value) else s)
    case Unmount(channel) => if Named(channel) then Released(s, channel.value) else s
    case TokenArrives(granted) => Token(s, granted)
    case Opened(id) => OnOpen(s, id)
    case Errored(id) => SetReady(s, id, Closing)
    case Closed(id) => OnClose(s, id)
    case TimerFires(last) => OnTimer(s, last)
  }

  // ----- agreement -----

  /** Each reference count is the number of mounted holders, and there are no others. */
  ghost predicate CountsHolders(subscriptions: map<string, nat>, holders: multiset<string>) {
    forall channel ::
      && holders[channel] == Count(subscriptions, channel)
      && (channel in subscriptions ==> subscriptions[channel] >= 1)
  }

  /** While the current socket is open, its server has exactly the channels someone holds. */
  predicate ServerAgrees(s: State) {
    Current(s) == Some(Open) ==> s.isOpen && Server(s) == s.subscriptions.Keys
  }

  /** Sockets are numbered below the next number; the current one exists; one that is still
      connecting has been told nothing. */
  predicate SocketsTidy(s: State) {
    && (forall id :: id in s.sockets ==> id < s.made && (s.sockets[id].ready == Connecting ==> s.sockets[id].server == {}))
    && (s.ws.Some? ==> s.ws.value in s.sockets)
  }

  predicate Positive(subscriptions: map<string, nat>) {
    forall channel :: channel in subscriptions ==> subscriptions[channel] >= 1
  }

  /** What every event keeps. */
  predicate ConnectionAgrees(s: State) {
    && Positive(s.subscriptions)
    && ServerAgrees(s)
    && SocketsTidy(s)
  }

  ghost predicate Agreement(s: State) {
    CountsHolders(s.subscriptions, s.holders) && ConnectionAgrees(s)
  }

  /** Stopping the session forgets every count, also of hooks that stay mounted. */
  predicate StopsWhileHeld(s: State, e: Event) {
    e.Stop? && s.holders != multiset{}
  }

  /** Taking a channel keeps the server told, and its count right. */
  lemma HeldAgrees(s: State, channel: string)
    requires ConnectionAgrees(s)
    ensures ConnectionAgrees(Held(s, channel))
    ensures Agreement(s) ==> Agreement(Held(s, channel))
  {
    var counted := s.(subscriptions := CountUp(s.subscriptions, channel));
    if Count(s.subscriptions, channel) == 0 && s.isOpen {
    } else {
      assert channel in s.subscriptions ==> s.subscriptions.Keys + {channel} == s.subscriptions.Keys;
      assert ConnectionAgrees(counted);
    }
  }

  /** So does releasing one, even one whose count a stop has forgotten. */
  lemma ReleasedAgrees(s: State, channel: string)
    requires ConnectionAgrees(s)
    ensures ConnectionAgrees(Released(s, channel))
    ensures Agreement(s) && channel in s.holders ==> Agreement(Released(s, channel))
  {
    var counted := s.(subscriptions := CountDown(s.subscriptions, channel));
    if Count(s.subscriptions, channel) <= 1 && s.isOpen {
    } else {
      assert ConnectionAgrees(counted);
    }
  }

  /** Whichever socket opens, the agreement with the current one's server is kept: a replaced socket
      only repeats what that server knows, or speaks to nobody. */
  lemma OpenAgrees(s: State, id: nat)
    requires ConnectionAgrees(s) && id in s.sockets && s.sockets[id].ready == Connecting
    ensures ConnectionAgrees(OnOpen(s, id))
  {
    var keys := s.subscriptions.Keys;
    assert {} + keys == keys && keys + keys == keys;
  }

  lemma ConnectionKept(s: State, e: Event)
    requires ConnectionAgrees(s) && Enabled(s, e)
    ensures ConnectionAgrees(Next(s, e))
  {
    match e
    case Mount(channel) =>
      if Named(channel) {
        HeldAgrees(s, channel.value);
      }
    case Unmount(channel) =>
      if Named(channel) {
        ReleasedAgrees(s, channel.value);
      }
    case Opened(id) => OpenAgrees(s, id);
    case _ =>
  }

  /** Every step keeps the agreement with the server; and it keeps the counts right exactly when it does
      not stop the session while some hook holds a channel. */
  lemma NextAgrees(s: State, e: Event)
    requires ConnectionAgrees(s) && Enabled(s, e)
    ensures ConnectionAgrees(Next(s, e))
    ensures Agreement(s) ==> (Agreement(Next(s, e)) <==> !StopsWhileHeld(s, e))
  {
    ConnectionKept(s, e);
    if Agreement(s) {
      match e
      case Mount(channel) =>
        if Named(channel) {
          HeldAgrees(s, channel.value);
        }
      case Unmount(channel) =>
        if Named(channel) {
          ReleasedAgrees(s, channel.value);
        }
      case _ =>
    }
  }

  // ----- whole runs -----

  /** The events of a run each happen when they can; `states[i]` is the state before `events[i]`. */
  predicate IsRun(states: seq<State>, events: seq<Event>) {
    && |states| == |events| + 1
    && states[0] == INITIAL
    && forall i {:trigger events[i]} :: 0 <= i < |events| ==> Steps(states[i], events[i], states[i + 1])
  }

  predicate Steps(s: State, e: Event, t: State) {
    Enabled(s, e) && t == Next(s, e)
  }

  /** In every run, with any number of connect attempts in flight and stops at any time, the server of
      the current socket, while it is open, has exactly the channels with a count. */
  lemma {:induction false} EveryRunAgrees(states: seq<State>, events: seq<Event>, i: nat)
    requires IsRun(states, events) && i <= |events|
    ensures ConnectionAgrees(states[i])
  {
    if i > 0 {
      EveryRunAgrees(states, events, i - 1);
      NextAgrees(states[i - 1], events[i - 1]);
    }
  }

  ghost predicate CountsUpTo(states: seq<State>, n: nat)
    requires n < |states|
  {
    forall i :: 0 <= i <= n ==> CountsHolders(states[i].subscriptions, states[i].holders)
  }

  predicate NoStopWhileHeldUpTo(states: seq<State>, events: seq<Event>, n: nat)
    requires n <= |events| && |states| == |events| + 1
  {
    forall i {:trigger events[i]} :: 0 <= i < n ==> !StopsWhileHeld(states[i], events[i])
  }

  lemma CountsStep(states: seq<State>, events: seq<Event>, m: nat)
    requires IsRun(states, events) && m < |events|
    requires CountsUpTo(states, m) <==> NoStopWhileHeldUpTo(states, events, m)
    ensures CountsUpTo(states, m + 1) <==> NoStopWhileHeldUpTo(states, events, m + 1)
  {
    EveryRunAgrees(states, events, m);
    NextAgrees(states[m], events[m]);
    var t := states[m + 1];
    assert t == Next(states[m], events[m]);
    assert CountsUpTo(states, m + 1) <==> CountsUpTo(states, m) && CountsHolders(t.subscriptions, t.holders);
    assert NoStopWhileHeldUpTo(states, events, m + 1)
      <==> NoStopWhileHeldUpTo(states, events, m) && !StopsWhileHeld(states[m], events[m]);
  }

  /** Each reference count is the number of mounted holders throughout a run, exactly when the session is
      never stopped while a hook holds a channel. */
  lemma {:induction false} CountsThroughoutIff(states: seq<State>, events: seq<Event>, n: nat)
    requires IsRun(states, events) && n <= |events|
    ensures CountsUpTo(states, n) <==> NoStopWhileHeldUpTo(states, events, n)
  {
    if n > 0 {
      CountsThroughoutIff(states, events, n - 1);
      CountsStep(states, events, n - 1);
    } else {
      assert CountsHolders(INITIAL.subscriptions, INITIAL.holders);
    }
  }

  // ----- reconnecting -----

  /** Whether the session runs after these events: its last start came after its last stop. */
  predicate Running(events: seq<Event>) {
    if events == [] then false
    else
      match events[|events| - 1]
      case Start => true
      case Stop => false
      case _ => Running(events[..|events| - 1])
  }

  /** How many sockets have closed, while the session ran, since one last opened. */
  function ClosesSinceOpen(events: seq<Event>): nat {
    if events == [] then 0
    else
      var before := events[..|events| - 1];
      match events[|events| - 1]
      case Opened(_) => 0
      case Closed(_) => ClosesSinceOpen(before) + if Running(before) then 1 else 0
      case _ => ClosesSinceOpen(before)
  }

  function Pow2(k: nat): (p: nat)
    ensures p >= 1
  {
    if k == 0 then 1 else 2 * Pow2(k - 1)
  }

  function Delay(closes: nat): nat {
    Min(1000 * Pow2(closes), 15000)
  }

  lemma DelayDoubles(closes: nat)
    ensures Min(Delay(closes) * 2, 15000) == Delay(closes + 1)
  {
  }

  /** What a step does to the session's flag and to the backoff. */
  lemma StepBackoff(s: State, e: Event)
    requires Enabled(s, e)
    ensures var t := Next(s, e);
      match e
      case Start => t.shouldRun && t.backoff == s.backoff
      case Stop => !t.shouldRun && t.backoff == s.backoff
      case Opened(_) => t.shouldRun == s.shouldRun && t.backoff == 1000
      case Closed(_) => t.shouldRun == s.shouldRun && t.backoff == if s.shouldRun then Min(s.backoff * 2, 15000) else s.backoff
      case _ => t.shouldRun == s.shouldRun && t.backoff == s.backoff
  {
    match e
    case Mount(channel) =>
      if Named(channel) {
        HookKeepsSockets(s, channel.value);
      }
    case Unmount(channel) =>
      if Named(channel) {
        HookKeepsSockets(s, channel.value);
      }
    case Opened(id) =>
      TellKeepsSockets(SetReady(s, id, Open).(isOpen := true, backoff := 1000), s.subscriptions.Keys, true);
    case _ =>
  }

  predicate BackoffIs(s: State, events: seq<Event>) {
    s.shouldRun == Running(events) && s.backoff == Delay(ClosesSinceOpen(events))
  }

  lemma BackoffStep(s: State, events: seq<Event>, e: Event)
    requires Enabled(s, e) && BackoffIs(s, events)
    ensures BackoffIs(Next(s, e), events + [e])
  {
    assert (events + [e])[..|events|] == events;
    StepBackoff(s, e);
    DelayDoubles(ClosesSinceOpen(events));
  }

  /** In every run the backoff, which is the delay a close schedules the next attempt with, is
      min(1000 * 2^k, 15000) milliseconds after k closes of the running session without an open. */
  lemma {:induction false} BackoffLaw(states: seq<State>, events: seq<Event>, i: nat)
    requires IsRun(states, events) && i <= |events|
    ensures states[i].shouldRun == Running(events[..i])
    ensures states[i].backoff == Delay(ClosesSinceOpen(events[..i]))
  {
    if i > 0 {
      BackoffLaw(states, events, i - 1);
      BackoffStep(states[i - 1], events[..i - 1], events[i - 1]);
      assert events[..i] == events[..i - 1] + [events[i - 1]];
    }
  }

  lemma BackoffNow(past: seq<State>, events: seq<Event>)
    requires IsRun(past, events)
    ensures past[|events|].shouldRun == Running(events)
    ensures past[|events|].backoff == Delay(ClosesSinceOpen(events))
  {
    BackoffLaw(past, events, |events|);
    assert events[..|events|] == events;
  }

  /** A running session is on its way to a connection: it has a socket, an attempt, or a timer. */
  predicate Trying(s: State) {
    s.shouldRun ==> s.ws.Some? || s.attempts > 0 || s.lastTimer || s.olderTimers > 0
  }

  /** The one step after which a running session waits for nothing: its only attempt gets no token. */
  predicate GivesUp(s: State, e: Event) {
    && e == TokenArrives(false) && s.shouldRun
    && s.ws == None && s.attempts == 1 && !s.lastTimer && s.olderTimers == 0
  }

  /** Every close is followed by another attempt: no step but that one ends the trying. */
  lemma TryingIff(s: State, e: Event)
    requires Enabled(s, e) && Trying(s)
    ensures Trying(Next(s, e)) <==> !GivesUp(s, e)
  {
    match e
    case Mount(channel) =>
      if Named(channel) {
        HookKeepsSockets(s, channel.value);
      }
    case Unmount(channel) =>
      if Named(channel) {
        HookKeepsSockets(s, channel.value);
      }
    case Opened(id) =>
      TellKeepsSockets(SetReady(s, id, Open).(isOpen := true, backoff := 1000), s.subscriptions.Keys, true);
    case _ =>
  }

  predicate TryingUpTo(states: seq<State>, n: nat)
    requires n < |states|
  {
    forall i :: 0 <= i <= n ==> Trying(states[i])
  }

  predicate NeverGivesUpTo(states: seq<State>, events: seq<Event>, n: nat)
    requires n <= |events| && |states| == |events| + 1
  {
    forall i {:trigger events[i]} :: 0 <= i < n ==> !GivesUp(states[i], events[i])
  }

  lemma TryingStep(states: seq<State>, events: seq<Event>, m: nat)
    requires IsRun(states, events) && m < |events|
    requires TryingUpTo(states, m) <==> NeverGivesUpTo(states, events, m)
    ensures TryingUpTo(states, m + 1) <==> NeverGivesUpTo(states, events, m + 1)
  {
    var t := states[m + 1];
    assert t == Next(states[m], events[m]);
    assert TryingUpTo(states, m + 1) <==> TryingUpTo(states, m) && Trying(states[m + 1]);
    assert NeverGivesUpTo(states, events, m + 1)
      <==> NeverGivesUpTo(states, events, m) && !GivesUp(states[m], events[m]);
    if Trying(states[m]) {
      TryingIff(states[m], events[m]);
    }
  }

  /** A running session is on its way throughout a run exactly when its only attempt never goes without
      a token. */
  lemma {:induction false} TryingThroughoutIff(states: seq<State>, events: seq<Event>, n: nat)
    requires IsRun(states, events) && n <= |events|
    ensures TryingUpTo(states, n) <==> NeverGivesUpTo(states, events, n)
  {
    if n > 0 {
      TryingThroughoutIff(states, events, n - 1);
      TryingStep(states, events, n - 1);
    }
  }

  // ----- mounting and reopening -----

  lemma CountRestored(subscriptions: map<string, nat>, holders: multiset<string>, channel: string)
    requires CountsHolders(subscriptions, holders)
    ensures CountDown(CountUp(subscriptions, channel), channel) == subscriptions
    ensures holders + multiset{channel} - multiset{channel} == holders
  {
    assert channel !in subscriptions ==> subscriptions[channel := 1] - {channel} == subscriptions;
  }

  /** Mounting and unmounting a hook leaves the counts, the holders and an open server as they were. */
  lemma MountUnmountRestores(s: State, channel: string)
    requires Agreement(s)
    ensures var t := Released(Held(s, channel), channel);
      && t.subscriptions == s.subscriptions && t.holders == s.holders
      && (Current(s) == Some(Open) ==> Server(t) == Server(s))
  {
    CountRestored(s.subscriptions, s.holders, channel);
    HeldAgrees(s, channel);
    ReleasedAgrees(Held(s, channel), channel);
  }

  /** A lost connection is made good: whatever was mounted or unmounted meanwhile, when the current
      socket opens its server is told exactly the channels held then. */
  lemma ReopenResubscribes(s: State, id: nat)
    requires Agreement(s) && Enabled(s, Opened(id)) && s.ws == Some(id)
    ensures forall channel :: channel in Server(Next(s, Opened(id))) <==> channel in s.holders
  {
    OpenAgrees(s, id);
    forall channel
      ensures channel in s.subscriptions <==> channel in s.holders
    {
      assert s.holders[channel] == Count(s.subscriptions, channel);
    }
  }

  // ----- one connection -----

  predicate Live(socket: Socket) {
    socket.ready != Closing
  }

  /** One connection: every socket not closing is the current one. */
  predicate Single(s: State) {
    forall id :: id in s.sockets && Live(s.sockets[id]) ==> s.ws == Some(id)
  }

  /** The steps that leave a live socket behind: a token that arrives while a live socket is current, and
      the late close of a replaced socket, which forgets the live one. */
  predicate LeavesBehind(s: State, e: Event) {
    Current(s).Some? && Current(s) != Some(Closing) &&
      match e
      case TokenArrives(granted) => s.shouldRun && granted
      case Closed(id) => s.ws != Some(id)
      case _ => false
  }

  /** The same sockets in the same states, the same one current, and as many attempts. */
  predicate SameSockets(s: State, t: State) {
    && t.ws == s.ws && t.attempts == s.attempts && t.sockets.Keys == s.sockets.Keys
    && forall id :: id in s.sockets ==> t.sockets[id].ready == s.sockets[id].ready
  }

  lemma TellKeepsSockets(s: State, channels: set<string>, subscribe: bool)
    ensures SameSockets(s, Tell(s, channels, subscribe))
    ensures var t := Tell(s, channels, subscribe); t == s.(sockets := t.sockets)
  {
  }

  /** A hook that comes or goes touches nothing but the counts, the holders and what a server is told. */
  lemma HookKeepsSockets(s: State, channel: string)
    ensures SameSockets(s, Held(s, channel)) && SameSockets(s, Released(s, channel))
    ensures var t := Held(s, channel);
      t == s.(sockets := t.sockets, subscriptions := t.subscriptions, holders := t.holders)
    ensures var t := Released(s, channel);
      t == s.(sockets := t.sockets, subscriptions := t.subscriptions, holders := t.holders)
  {
    TellKeepsSockets(s.(subscriptions := CountUp(s.subscriptions, channel)), {channel}, true);
    TellKeepsSockets(s.(subscriptions := CountDown(s.subscriptions, channel)), {channel}, false);
  }

  lemma OpenKeepsSockets(s: State, id: nat)
    requires id in s.sockets
    ensures SameSockets(SetReady(s, id, Open), OnOpen(s, id))
  {
  }

  /** A session that was stopped stays so until it is started: it begins no attempt and makes no socket. */
  lemma StoppedIsQuiet(s: State, e: Event)
    requires Enabled(s, e) && !s.shouldRun && e != Start
    ensures var t := Next(s, e); !t.shouldRun && t.attempts <= s.attempts && t.made == s.made && t.sockets.Keys <= s.sockets.Keys
  {
    match e
    case Mount(channel) =>
      if Named(channel) {
        HookKeepsSockets(s, channel.value);
      }
    case Unmount(channel) =>
      if Named(channel) {
        HookKeepsSockets(s, channel.value);
      }
    case Opened(id) => OpenKeepsSockets(s, id);
    case _ =>
  }

  /** The connection stays single on every step but exactly those. */
  lemma SingleIff(s: State, e: Event)
    requires ConnectionAgrees(s) && Enabled(s, e) && Single(s)
    ensures Single(Next(s, e)) <==> !LeavesBehind(s, e)
  {
    match e
    case Mount(channel) =>
      if Named(channel) {
        HookKeepsSockets(s, channel.value);
      }
    case Unmount(channel) =>
      if Named(channel) {
        HookKeepsSockets(s, channel.value);
      }
    case Opened(id) => OpenSingle(s, id);
    case _ =>
  }

  lemma OpenSingle(s: State, id: nat)
    requires id in s.sockets && s.sockets[id].ready == Connecting && Single(s)
    ensures Single(OnOpen(s, id))
  {
    assert s.ws == Some(id);
    OpenKeepsSockets(s, id);
  }

  predicate SingleUpTo(states: seq<State>, n: nat)
    requires n < |states|
  {
    forall i :: 0 <= i <= n ==> Single(states[i])
  }

  predicate NothingLeftUpTo(states: seq<State>, events: seq<Event>, n: nat)
    requires n <= |events| && |states| == |events| + 1
  {
    forall i {:trigger events[i]} :: 0 <= i < n ==> !LeavesBehind(states[i], events[i])
  }

  lemma RunSingleIff(states: seq<State>, events: seq<Event>, m: nat)
    requires IsRun(states, events) && m < |events| && Single(states[m])
    ensures Single(states[m + 1]) <==> !LeavesBehind(states[m], events[m])
  {
    EveryRunAgrees(states, events, m);
    SingleIff(states[m], events[m]);
  }

  lemma SingleStep(states: seq<State>, events: seq<Event>, m: nat)
    requires IsRun(states, events) && m < |events|
    requires SingleUpTo(states, m) <==> NothingLeftUpTo(states, events, m)
    ensures SingleUpTo(states, m + 1) <==> NothingLeftUpTo(states, events, m + 1)
  {
    assert SingleUpTo(states, m + 1) <==> SingleUpTo(states, m) && Single(states[m + 1]);
    assert NothingLeftUpTo(states, events, m + 1)
      <==> NothingLeftUpTo(states, events, m) && !LeavesBehind(states[m], events[m]);
    if SingleUpTo(states, m) {
      RunSingleIff(states, events, m);
    }
  }

  /** A run has one connection throughout exactly when no step leaves a live socket behind. */
  lemma {:induction false} SingleThroughoutIff(states: seq<State>, events: seq<Event>, n: nat)
    requires IsRun(states, events) && n <= |events|
    ensures SingleUpTo(states, n) <==> NothingLeftUpTo(states, events, n)
  {
    if n > 0 {
      SingleThroughoutIff(states, events, n - 1);
      SingleStep(states, events, n - 1);
    }
  }

  /** The discipline that is enough: no attempt begins while another, or any socket, is still there. */
  predicate OneAtATime(states: seq<State>, events: seq<Event>)
    requires |states| == |events| + 1
  {
    forall i {:trigger events[i]} :: 0 <= i < |events| && states[i + 1].attempts > states[i].attempts ==>
      states[i].attempts == 0 && states[i].sockets == map[]
  }

  /** One attempt or one socket, never both. */
  predicate OneConnection(s: State) {
    s.attempts + |s.sockets| <= 1
  }

  lemma SameSocketsCount(s: State, t: State)
    requires SameSockets(s, t)
    ensures |t.sockets| == |s.sockets|
  {
    assert |s.sockets| == |s.sockets.Keys| && |t.sockets| == |t.sockets.Keys|;
  }

  lemma OneConnectionStep(s: State, e: Event)
    requires SocketsTidy(s) && Enabled(s, e) && OneConnection(s)
    requires Next(s, e).attempts > s.attempts ==> s.attempts == 0 && s.sockets == map[]
    ensures OneConnection(Next(s, e))
  {
    match e
    case Mount(channel) =>
      if Named(channel) {
        HookKeepsSockets(s, channel.value);
        SameSocketsCount(s, Held(s, channel.value));
      }
    case Unmount(channel) =>
      if Named(channel) {
        HookKeepsSockets(s, channel.value);
        SameSocketsCount(s, Released(s, channel.value));
      }
    case Opened(id) =>
      OpenKeepsSockets(s, id);
      SameSocketsCount(SetReady(s, id, Open), OnOpen(s, id));
    case Closed(id) => FewerKeys(s.sockets, id);
    case TokenArrives(_) => assert s.sockets == map[];
    case _ =>
  }

  lemma NothingLeftBehind(s: State, e: Event)
    requires SocketsTidy(s) && Enabled(s, e) && OneConnection(s)
    ensures !LeavesBehind(s, e)
  {
    if e.Closed? && LeavesBehind(s, e) {
      assert {e.id, s.ws.value} <= s.sockets.Keys;
      TwoKeys(s.sockets, e.id, s.ws.value);
    }
  }

  lemma TwoKeys(a: map<nat, Socket>, i: nat, j: nat)
    requires i in a && j in a && i != j
    ensures |a| >= 2
  {
    FewerKeys(a, i);
    FewerKeys(a - {i}, j);
  }

  lemma FewerKeys(a: map<nat, Socket>, id: nat)
    requires id in a
    ensures |a - {id}| == |a| - 1
  {
    assert (a - {id}).Keys == a.Keys - {id};
    assert |a| == |a.Keys| && |a - {id}| == |(a - {id}).Keys|;
  }

  /** Under that discipline there is never a second socket, and the connection is single. */
  lemma {:induction false} OneAtATimeIsSingle(states: seq<State>, events: seq<Event>, i: nat)
    requires IsRun(states, events) && OneAtATime(states, events) && i <= |events|
    ensures OneConnection(states[i]) && Single(states[i])
  {
    if i > 0 {
      var m := i - 1;
      OneAtATimeIsSingle(states, events, m);
      EveryRunAgrees(states, events, m);
      assert states[m + 1] == Next(states[m], events[m]);
      OneConnectionStep(states[m], events[m]);
      NothingLeftBehind(states[m], events[m]);
      SingleIff(states[m], events[m]);
    }
  }

  lemma TellNothing(s: State, subscribe: bool)
    ensures Tell(s, {}, subscribe) == s
  {
    if Current(s) == Some(Open) {
      var socket := s.sockets[s.ws.value];
      assert socket.server + {} == socket.server == socket.server - {};
      assert s.sockets[s.ws.value := socket] == s.sockets;
    }
  }

  /** With no channel held, opening a socket tells nobody anything. */
  lemma OpensQuietly(s: State, id: nat)
    requires Enabled(s, Opened(id)) && s.subscriptions == map[]
    ensures Next(s, Opened(id)) == SetReady(s, id, Open).(isOpen := true, backoff := 1000)
  {
    assert s.subscriptions.Keys == {};
    TellNothing(SetReady(s, id, Open).(isOpen := true, backoff := 1000), true);
  }

  const FRESH: Socket := Socket(Connecting, {})
  const OPENED: Socket := Socket(Open, {})
  const CLOSING: Socket := Socket(Closing, {})

  lemma TwoAttempts() returns (s1: State, s2: State, s3: State, s4: State)
    ensures Steps(INITIAL, Start, s1) && Steps(s1, Mount(None), s2)
    ensures Steps(s2, TokenArrives(true), s3) && Steps(s3, TokenArrives(true), s4)
    ensures s4.sockets == map[0 := FRESH, 1 := FRESH] && s4.ws == Some(1) && s4.subscriptions == map[]
  {
    s1 := Next(INITIAL, Start);
    s2 := Next(s1, Mount(None));
    s3 := Next(s2, TokenArrives(true));
    s4 := Next(s3, TokenArrives(true));
  }

  lemma BothOpen(s4: State) returns (s5: State, s6: State)
    requires s4.sockets == map[0 := FRESH, 1 := FRESH] && s4.ws == Some(1) && s4.subscriptions == map[]
    ensures Steps(s4, Opened(0), s5) && Steps(s5, Opened(1), s6)
    ensures s6.sockets == map[0 := OPENED, 1 := OPENED] && s6.ws == Some(1)
  {
    OpensQuietly(s4, 0);
    s5 := Next(s4, Opened(0));
    OpensQuietly(s5, 1);
    s6 := Next(s5, Opened(1));
  }

  /** Without it, a hook that mounts while the first token is awaited starts a second attempt, and both
      make a socket; both open, and only one of them is the current one. */
  lemma SecondAttemptLeavesSocket() returns (states: seq<State>)
    ensures IsRun(states, [Start, Mount(None), TokenArrives(true), TokenArrives(true), Opened(0), Opened(1)])
    ensures var s := states[6]; s.sockets == map[0 := OPENED, 1 := OPENED] && s.ws == Some(1) && !Single(s)
  {
    var s1, s2, s3, s4 := TwoAttempts();
    var s5, s6 := BothOpen(s4);
    states := [INITIAL, s1, s2, s3, s4, s5, s6];
    assert 0 in s6.sockets && Live(s6.sockets[0]);
  }

  /** The one socket there is, in this state, made as the first. */
  predicate OnlyFirst(s: State, socket: Socket) {
    s.sockets == map[0 := socket] && s.made == 1 && s.attempts == 0 && s.subscriptions == map[]
  }

  lemma FirstSocket() returns (s1: State, s2: State)
    ensures Steps(INITIAL, Start, s1) && Steps(s1, TokenArrives(true), s2)
    ensures s1.attempts == 1 && OnlyFirst(s2, FRESH) && s2.ws == Some(0)
  {
    s1 := Next(INITIAL, Start);
    s2 := Next(s1, TokenArrives(true));
  }

  lemma FirstStops(s2: State) returns (s3: State)
    requires OnlyFirst(s2, FRESH) && s2.ws == Some(0)
    ensures Steps(s2, Stop, s3) && OnlyFirst(s3, CLOSING) && s3.ws == None
  {
    s3 := Next(s2, Stop);
  }

  lemma OpenThenLateClose(s5: State) returns (s6: State, s7: State)
    requires s5.attempts == 0 && s5.sockets == map[0 := CLOSING, 1 := FRESH]
    requires s5.ws == Some(1) && s5.subscriptions == map[]
    ensures Steps(s5, Opened(1), s6) && Steps(s6, Closed(0), s7)
    ensures Single(s6) && s6.ws == Some(1) && s6.attempts == s7.attempts == 0
    ensures s7.sockets == map[1 := OPENED] && s7.ws == None
  {
    OpensQuietly(s5, 1);
    s6 := Next(s5, Opened(1));
    assert s6.sockets == map[0 := CLOSING, 1 := OPENED];
    s7 := Next(s6, Closed(0));
  }

  lemma RunExtends(states: seq<State>, events: seq<Event>, e: Event, t: State)
    requires IsRun(states, events) && Steps(states[|events|], e, t)
    ensures IsRun(states + [t], events + [e])
  {
    var longer, all := states + [t], events + [e];
    forall i {:trigger all[i]} | 0 <= i < |all|
      ensures Steps(longer[i], all[i], longer[i + 1])
    {
      assert i < |events| ==> all[i] == events[i];
    }
  }

  predicate AttemptsAtMostOne(states: seq<State>) {
    forall s :: s in states ==> s.attempts <= 1
  }

  lemma RunOfTwo(e: Event, f: Event, s1: State, s2: State)
    requires Steps(INITIAL, e, s1) && Steps(s1, f, s2)
    ensures IsRun([INITIAL, s1, s2], [e, f])
    ensures s1.attempts <= 1 && s2.attempts <= 1 ==> AttemptsAtMostOne([INITIAL, s1, s2])
  {
    var states, events := [INITIAL, s1, s2], [e, f];
    forall i {:trigger events[i]} | 0 <= i < |events|
      ensures Steps(states[i], events[i], states[i + 1])
    {
      assert i == 0 || i == 1;
    }
  }

  lemma RunToFirst() returns (states: seq<State>)
    ensures IsRun(states, [Start, TokenArrives(true)])
    ensures AttemptsAtMostOne(states) && OnlyFirst(states[2], FRESH) && states[2].ws == Some(0)
  {
    var s1, s2 := FirstSocket();
    RunOfTwo(Start, TokenArrives(true), s1, s2);
    states := [INITIAL, s1, s2];
  }

  lemma StopAndRestart() returns (states: seq<State>)
    ensures IsRun(states, [Start, TokenArrives(true)] + [Stop] + [Start] + [TokenArrives(true)])
    ensures AttemptsAtMostOne(states)
    ensures states[5].sockets == map[0 := CLOSING, 1 := FRESH]
    ensures states[5].ws == Some(1) && states[5].attempts == 0 && states[5].subscriptions == map[]
  {
    var first := RunToFirst();
    var events := [Start, TokenArrives(true)];
    var s3 := FirstStops(first[2]);
    RunExtends(first, events, Stop, s3);
    states := RestartFrom(first + [s3], events + [Stop]);
  }

  lemma RestartFrom(before: seq<State>, events: seq<Event>) returns (states: seq<State>)
    requires IsRun(before, events) && AttemptsAtMostOne(before)
    requires OnlyFirst(before[|events|], CLOSING) && before[|events|].ws == None
    ensures IsRun(states, events + [Start] + [TokenArrives(true)]) && AttemptsAtMostOne(states)
    ensures var s := states[|events| + 2];
      && s.sockets == map[0 := CLOSING, 1 := FRESH]
      && s.ws == Some(1) && s.attempts == 0 && s.subscriptions == map[]
  {
    var s4 := Next(before[|events|], Start);
    var s5 := Next(s4, TokenArrives(true));
    RunExtends(before, events, Start, s4);
    RunExtends(before + [s4], events + [Start], TokenArrives(true), s5);
    states := before + [s4] + [s5];
  }

  /** Nor is one attempt at a time enough: when the session stops and starts again, the late close of the
      first socket makes the client forget the second, which stays open. */
  lemma LateCloseLeavesSocket() returns (states: seq<State>)
    ensures IsRun(states, [Start, TokenArrives(true), Stop, Start, TokenArrives(true), Opened(1), Closed(0)])
    ensures AttemptsAtMostOne(states)
    ensures Single(states[6]) && states[6].ws == Some(1)
    ensures var s := states[7]; s.sockets == map[1 := OPENED] && s.ws == None && !Single(s)
  {
    var first := StopAndRestart();
    var events := [Start, TokenArrives(true)] + [Stop] + [Start] + [TokenArrives(true)];
    var s6, s7 := OpenThenLateClose(first[5]);
    RunExtends(first, events, Opened(1), s6);
    RunExtends(first + [s6], events + [Opened(1)], Closed(0), s7);
    states := first + [s6] + [s7];
    assert events + [Opened(1)] + [Closed(0)]
      == [Start, TokenArrives(true), Stop, Start, TokenArrives(true), Opened(1), Closed(0)];
    assert 1 in s7.sockets && Live(s7.sockets[1]);
  }

  /** A stop while a hook is mounted costs a later one its channel: the first hook's release takes down
      the count that the second has put up, although the second stays mounted. */
  lemma StopWhileHeldUnsubscribes(s: State, channel: string)
    requires Agreement(s) && Named(Some(channel)) && channel in s.holders
    ensures var t := Next(Next(Next(s, Stop), Mount(Some(channel))), Unmount(Some(channel)));
      channel in t.holders && Count(t.subscriptions, channel) == 0
  {
    var t := Next(s, Stop);
    assert t.subscriptions == map[] && t.holders == s.holders;
    var u := Next(t, Mount(Some(channel)));
    assert Count(u.subscriptions, channel) == 1 && u.holders == s.holders + multiset{channel};
  }
}
