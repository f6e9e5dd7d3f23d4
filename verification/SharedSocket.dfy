/**
 The app's shared socket, with its reference-counted subscriptions. Every operation is proved to
 be a step of SocketModel. The agreement between counts, server and backoff is the object's
 invariant; that the counts are those of the mounted hooks is kept by all but an early stop.
 */
module SharedSocket {
  import opened SocketModel
  import opened Wrappers

  class SharedSocket {
    var ws: Option<nat>
    var isOpen: bool
    var shouldRun: bool
    var backoff: nat
    var subscriptions: map<string, nat>

    /** The platform's side: the sockets that have not closed, and how many were made. */
    var sockets: map<nat, Socket>
    var made: nat

    /** Outside the client: pending timers, attempts that wait for a token, the mounted hooks. */
    ghost var lastTimer: bool
    ghost var olderTimers: nat
    ghost var attempts: nat
    ghost var holders: multiset<string>

    /** Everything that has happened, and the states in between. */
    ghost var events: seq<Event>
    ghost var past: seq<State>

    ghost function View(): State
      reads this
    {
      State(sockets, made, ws, isOpen, shouldRun, attempts, backoff, lastTimer, olderTimers,
            subscriptions, holders)
    }

    ghost predicate Valid()
      reads this
    {
      ConnectionAgrees(View()) && IsRun(past, events) && past[|events|] == View()
    }

    /** An event has taken the object from `before` to where it is now. */
    ghost method Took(e: Event, before: State)
      requires IsRun(past, events) && past[|events|] == before
      requires ConnectionAgrees(before) && Steps(before, e, View())
      modifies `past, `events
      ensures Valid() && events == old(events) + [e]
      ensures CountsHolders(before.subscriptions, before.holders) ==> (Counted() <==> !StopsWhileHeld(before, e))
    {
      NextAgrees(before, e);
      RunExtends(past, events, e, View());
      past, events := past + [View()], events + [e];
    }

    /** Each reference count is the number of mounted holders. */
    ghost predicate Counted()
      reads this
    {
      CountsHolders(subscriptions, holders)
    }

    constructor ()
      ensures View() == INITIAL && Valid() && Counted()
    {
      ws, isOpen, shouldRun := None, false, false;
      backoff, subscriptions := 1000, map[];
      sockets, made := map[], 0;
      lastTimer, olderTimers, attempts, holders := false, 0, 0, multiset{};
      past, events := [INITIAL], [];
    }

    /** Sends a (un)subscribe message; it is lost unless the current socket is open. */
    method RawSend(subscribe: bool, channel: string)
      modifies `sockets
      ensures View() == Tell(old(View()), {channel}, subscribe)
    {
      if ws.Some? && ws.value in sockets && sockets[ws.value].ready == Open {
        var socket := sockets[ws.value];
        var server := if subscribe then socket.server + {channel} else socket.server - {channel};
        sockets := sockets[ws.value := socket.(server := server)];
      }
    }

    /** Begins a connect attempt, which then waits for its token, unless there is a socket already. */
    method BeginConnect()
      modifies `attempts
      ensures View() == Connect(old(View()))
    {
      if !shouldRun || ws.Some? {
        return;
      }
      attempts := attempts + 1;
    }

    /** An attempt's token arrives, or turns out to be missing. */
    method TokenArrived(granted: bool)
      requires Valid() && Enabled(View(), TokenArrives(granted))
      modifies `attempts, `ws, `sockets, `made, `past, `events
      ensures View() == Next(old(View()), TokenArrives(granted))
      ensures events == old(events) + [TokenArrives(granted)]
      ensures old(Counted()) ==> Counted()
      ensures Valid()
    {
      ghost var before := View();
      attempts := attempts - 1;
      if shouldRun && granted {
        sockets := sockets[made := Socket(Connecting, {})];
        ws := Some(made);
        made := made + 1;
      }
      Took(TokenArrives(granted), before);
    }

    /** The open handler of a socket: resets the backoff and subscribes every counted channel again. */
    method OnOpen(id: nat)
      requires Valid() && Enabled(View(), Opened(id))
      modifies this
      ensures View() == Next(old(View()), Opened(id))
      ensures events == old(events) + [Opened(id)]
      ensures old(Counted()) ==> Counted()
      ensures Valid()
    {
      ghost var before := View();
      sockets := sockets[id := sockets[id].(ready := Open)];
      isOpen := true;
      backoff := 1000;
      Resubscribe();
      Took(Opened(id), before);
    }

    /** Subscribes every counted channel, one message each. */
    method Resubscribe()
      modifies `sockets
      ensures View() == Tell(old(View()), subscriptions.Keys, true)
    {
      var rest := subscriptions.Keys;
      TellNothing(View(), true);
      assert subscriptions.Keys - rest == {};
      while rest != {}
        invariant rest <= subscriptions.Keys
        invariant View() == Tell(old(View()), subscriptions.Keys - rest, true)
        decreases rest
      {
        var channel :| channel in rest;
        TellMore(old(View()), subscriptions.Keys - rest, {channel});
        assert subscriptions.Keys - (rest - {channel}) == (subscriptions.Keys - rest) + {channel};
        RawSend(true, channel);
        rest := rest - {channel};
      }
      assert subscriptions.Keys - {} == subscriptions.Keys;
    }

    /** The error handler closes the socket; its close event follows. */
    method OnError(id: nat)
      requires Valid() && Enabled(View(), Errored(id))
      modifies `sockets, `past, `events
      ensures View() == Next(old(View()), Errored(id))
      ensures events == old(events) + [Errored(id)]
      ensures old(Counted()) ==> Counted()
      ensures Valid()
    {
      ghost var before := View();
      sockets := sockets[id := sockets[id].(ready := Closing)];
      Took(Errored(id), before);
    }

    /** Forgets the current socket and, while the session runs, sets a timer and doubles the backoff. */
    method Forget(id: nat) returns (delay: Option<nat>)
      modifies `sockets, `ws, `isOpen, `backoff, `lastTimer, `olderTimers
      ensures View() == SocketModel.OnClose(old(View()), id)
      ensures delay == if shouldRun then Some(old(backoff)) else None
    {
      sockets, isOpen, ws := sockets - {id}, false, None;
      if !shouldRun {
        return None;
      }
      delay := Some(backoff);
      backoff := Min(backoff * 2, 15000);
      olderTimers, lastTimer := olderTimers + (if lastTimer then 1 else 0), true;
    }

    /** The close handler: while the session runs, the next attempt comes after `delay` milliseconds,
        which depends on the closes since the last open alone. */
    method OnClose(id: nat) returns (delay: Option<nat>)
      requires Valid() && Enabled(View(), Closed(id))
      modifies `sockets, `ws, `isOpen, `backoff, `lastTimer, `olderTimers, `past, `events
      ensures View() == Next(old(View()), Closed(id))
      ensures events == old(events) + [Closed(id)]
      ensures old(Counted()) ==> Counted()
      ensures delay == if Running(old(events)) then Some(Delay(ClosesSinceOpen(old(events)))) else None
      ensures Valid()
    {
      ghost var before := View();
      BackoffNow(past, events);
      delay := Forget(id);
      Took(Closed(id), before);
    }

    /** A reconnect timer fires. */
    method OnTimer(last: bool)
      requires Valid() && Enabled(View(), TimerFires(last))
      modifies `lastTimer, `olderTimers, `attempts, `past, `events
      ensures View() == Next(old(View()), TimerFires(last))
      ensures events == old(events) + [TimerFires(last)]
      ensures old(Counted()) ==> Counted()
      ensures Valid()
    {
      ghost var before := View();
      if last {
        lastTimer := false;
      } else {
        olderTimers := olderTimers - 1;
      }
      BeginConnect();
      Took(TimerFires(last), before);
    }

    method StartSocket()
      requires Valid()
      modifies `shouldRun, `attempts, `past, `events
      ensures View() == Next(old(View()), Start)
      ensures events == old(events) + [Start]
      ensures old(Counted()) ==> Counted()
      ensures Valid()
    {
      ghost var before := View();
      shouldRun := true;
      BeginConnect();
      Took(Start, before);
    }

    /** Closes the current socket, if any, and forgets it, the last timer and every count. */
    method Halt()
      requires ws.Some? ==> ws.value in sockets
      modifies `shouldRun, `lastTimer, `sockets, `ws, `isOpen, `subscriptions
      ensures View() == SocketModel.StopSocket(old(View()))
    {
      shouldRun := false;
      lastTimer := false;
      if ws.Some? {
        sockets := sockets[ws.value := sockets[ws.value].(ready := Closing)];
      }
      ws := None;
      isOpen := false;
      subscriptions := map[];
    }

    /** Ends the session. Forgetting the counts is right only when no hook holds a channel. */
    method StopSocket()
      requires Valid()
      modifies `shouldRun, `lastTimer, `sockets, `ws, `isOpen, `subscriptions, `past, `events
      ensures View() == Next(old(View()), Stop)
      ensures events == old(events) + [Stop]
      ensures old(Counted()) ==> (Counted() <==> holders == multiset{})
      ensures Valid()
    {
      ghost var before := View();
      Halt();
      Took(Stop, before);
    }

    method AddSubscription(channel: string)
      modifies `subscriptions, `sockets
      ensures View() == Add(old(View()), channel)
    {
      var n := if channel in subscriptions then subscriptions[channel] else 0;
      subscriptions := subscriptions[channel := n + 1];
      if n == 0 && isOpen {
        RawSend(true, channel);
      }
    }

    method RemoveSubscription(channel: string)
      modifies `subscriptions, `sockets
      ensures View() == RemoveSub(old(View()), channel)
    {
      var n := if channel in subscriptions then subscriptions[channel] else 0;
      if n <= 1 {
        subscriptions := subscriptions - {channel};
        if isOpen {
          RawSend(false, channel);
        }
      } else {
        subscriptions := subscriptions[channel := n - 1];
      }
    }

    /** A hook mounts: it takes its channel, if it has one, and makes sure a connection is coming. */
    method MountHook(channel: Option<string>)
      requires Valid()
      modifies `subscriptions, `sockets, `holders, `attempts, `past, `events
      ensures View() == Next(old(View()), Mount(channel))
      ensures events == old(events) + [Mount(channel)]
      ensures old(Counted()) ==> Counted()
      ensures Valid()
    {
      ghost var before := View();
      if channel.Some? && channel.value != "" {
        AddSubscription(channel.value);
        holders := holders + multiset{channel.value};
      }
      BeginConnect();
      Took(Mount(channel), before);
    }

    method UnmountHook(channel: Option<string>)
      requires Valid() && Enabled(View(), Unmount(channel))
      modifies `subscriptions, `sockets, `holders, `past, `events
      ensures View() == Next(old(View()), Unmount(channel))
      ensures events == old(events) + [Unmount(channel)]
      ensures old(Counted()) ==> Counted()
      ensures Valid()
    {
      ghost var before := View();
      if channel.Some? && channel.value != "" {
        RemoveSubscription(channel.value);
        holders := holders - multiset{channel.value};
      }
      Took(Unmount(channel), before);
    }
  }

  /** Two messages are as good as one that names all the channels. */
  lemma TellMore(s: State, a: set<string>, b: set<string>)
    ensures Tell(Tell(s, a, true), b, true) == Tell(s, a + b, true)
  {
    if Current(s) == Some(Open) {
      var server := s.sockets[s.ws.value].server;
      assert server + a + b == server + (a + b);
      assert Tell(Tell(s, a, true), b, true).sockets == Tell(s, a + b, true).sockets;
    }
  }
}
