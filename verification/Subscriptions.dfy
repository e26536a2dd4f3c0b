/**
 Real-time updates in the board: subscribers, the polling switch, and the baseline reading
 that a check compares against. Commands run one after another.
 */
module Subscriptions {
  import opened Wrappers

  type Callback = int
  type Reading = int

  function RemoveFirst(s: seq<Callback>, x: Callback): seq<Callback> {
    if s == [] then [] else if s[0] == x then s[1..] else [s[0]] + RemoveFirst(s[1..], x)
  }

  datatype State = State(subscribers: seq<Callback>, baseline: Option<Reading>, polling: bool, connected: bool)

  datatype Event = Subscribe(callback: Callback, reading: Reading) | Unsubscribe(callback: Callback)
                 | Check(reading: Reading) | Disconnect

  function Handle(s: State, e: Event): State {
    match e
    case Subscribe(cb, reading) =>
      if !s.connected then s
      else State(s.subscribers + [cb], if s.baseline.None? then Some(reading) else s.baseline,
                 s.polling || |s.subscribers| == 0, true)
    case Unsubscribe(cb) =>
      var left := RemoveFirst(s.subscribers, cb);
      if left == [] then State([], None, false, s.connected) else s.(subscribers := left)
    case Check(reading) =>
      if !s.polling || !s.connected || s.subscribers == [] then s else s.(baseline := Some(reading))
    case Disconnect => State([], None, false, false)
  }

  /** Whether an event is a check that finds a change and notifies. */
  predicate Notifies(s: State, e: Event) {
    && e.Check? && s.polling && s.connected && s.subscribers != []
    && s.baseline.Some? && e.reading != s.baseline.value
  }

  /** One call to each subscriber. */
  function Calls(subscribers: seq<Callback>, reading: Reading): (calls: seq<(Callback, Reading)>)
    ensures |calls| == |subscribers| && forall i :: 0 <= i < |calls| ==> calls[i] == (subscribers[i], reading)
  {
    seq(|subscribers|, i requires 0 <= i < |subscribers| => (subscribers[i], reading))
  }

  lemma {:induction false} RemoveAbsent(s: seq<Callback>, x: Callback)
    requires x !in s
    ensures RemoveFirst(s, x) == s
  {
    if s != [] {
      RemoveAbsent(s[1..], x);
    }
  }

  /** Removing a callback takes out its first occurrence and leaves the rest in order. */
  lemma {:induction false} RemoveFirstExactly(s: seq<Callback>, x: Callback)
    returns (before: seq<Callback>, after: seq<Callback>)
    requires x in s
    ensures s == before + [x] + after && x !in before && RemoveFirst(s, x) == before + after
  {
    if s[0] == x {
      before, after := [], s[1..];
    } else {
      before, after := RemoveFirstExactly(s[1..], x);
      before := [s[0]] + before;
    }
  }

  lemma TakeOut(a: seq<Callback>, x: Callback, b: seq<Callback>)
    ensures multiset(a + b) == multiset(a + [x] + b) - multiset{x}
  {
    assert multiset(a + [x] + b) == multiset(a) + multiset{x} + multiset(b);
    assert multiset(a + b) == multiset(a) + multiset(b);
  }

  lemma RemoveFirstTakesOne(s: seq<Callback>, x: Callback)
    ensures multiset(RemoveFirst(s, x)) == multiset(s) - multiset{x}
  {
    if x in s {
      var before, after := RemoveFirstExactly(s, x);
      TakeOut(before, x, after);
    } else {
      RemoveAbsent(s, x);
    }
  }

  /** An unsubscribe takes one occurrence of the callback, if there is one, and no other subscriber. */
  lemma UnsubscribeExactly(s: State, cb: Callback)
    ensures var after := Handle(s, Unsubscribe(cb)).subscribers;
            multiset(after) == multiset(s.subscribers) - multiset{cb}
  {
    RemoveFirstTakesOne(s.subscribers, cb);
  }

  /** A new subscriber comes last: notifications go out in the order of subscription. */
  lemma SubscribersInOrder(s: State, a: Callback, b: Callback, r: Reading)
    requires s.connected
    ensures Handle(Handle(s, Subscribe(a, r)), Subscribe(b, r)).subscribers == s.subscribers + [a, b]
  {
    assert s.subscribers + [a] + [b] == s.subscribers + [a, b];
  }

  /** Without a connection there is no subscribing. */
  lemma NoConnectionNoSubscriber(s: State, a: Callback, r: Reading)
    requires !s.connected
    ensures Handle(s, Subscribe(a, r)) == s
  {
  }

  /** After a close nobody is subscribed, and nobody can subscribe over the closed connection. */
  lemma NoSubscriberAfterClose(s: State, a: Callback, r: Reading)
    ensures Handle(Handle(s, Disconnect), Subscribe(a, r)).subscribers == []
  {
  }

  class Connection {
    var subscribers: seq<Callback>
    var baseline: Option<Reading>
    var polling: bool
    var connected: bool
    /** Every call made to a subscriber, oldest first. */
    var calls: seq<(Callback, Reading)>

    ghost function View(): State
      reads this
    {
      State(subscribers, baseline, polling, connected)
    }

    constructor ()
      ensures View() == State([], None, false, true) && calls == []
    {
      subscribers, baseline, polling, connected, calls := [], None, false, true, [];
    }

    method SubscribeToUpdates(cb: Callback, reading: Reading)
      modifies this`subscribers, this`baseline, this`polling
      ensures View() == Handle(old(View()), Subscribe(cb, reading))
    {
      if !connected {
        return;
      }
      subscribers := subscribers + [cb];
      if baseline.None? {
        baseline := Some(reading);
      }
      if |subscribers| == 1 {
        polling := true;
      }
    }

    method UnsubscribeFromUpdates(cb: Callback)
      modifies this`subscribers, this`baseline, this`polling
      ensures View() == Handle(old(View()), Unsubscribe(cb))
    {
      if cb in subscribers {
        subscribers := RemoveFirst(subscribers, cb);
      } else {
        RemoveAbsent(subscribers, cb);
      }
      if |subscribers| == 0 {
        polling := false;
        baseline := None;
      }
    }

    method CheckForUpdates(reading: Reading) returns (changed: bool)
      modifies this`baseline, this`calls
      ensures View() == Handle(old(View()), Check(reading))
      ensures changed <==> Notifies(old(View()), Check(reading))
      ensures calls == old(calls) + if changed then Calls(old(subscribers), reading) else []
    {
      if !polling || !connected {
        return false;
      }
      if |subscribers| == 0 {
        return false;
      }
      var snapshot := subscribers;
      if baseline.Some? && reading != baseline.value {
        baseline := Some(reading);
        for i := 0 to |snapshot|
          invariant baseline == Some(reading)
          invariant calls == old(calls) + Calls(snapshot, reading)[..i]
        {
          calls := calls + [(snapshot[i], reading)];
        }
        return true;
      }
      baseline := Some(reading);
      changed := false;
    }

    method Close()
      modifies this`subscribers, this`baseline, this`polling, this`connected
      ensures View() == Handle(old(View()), Disconnect)
    {
      subscribers, polling, baseline := [], false, None;
      connected := false;
    }
  }

  // Whole runs

  function StateAt(s: State, events: seq<Event>, i: nat): State
    requires i <= |events|
  {
    if i == 0 then s else Handle(StateAt(s, events, i - 1), events[i - 1])
  }

  /** Polling is on exactly while there are subscribers, exactly while a baseline is held. */
  predicate Consistent(s: State) {
    && (s.polling <==> s.subscribers != [])
    && (s.baseline.Some? <==> s.subscribers != [])
    && (s.subscribers != [] ==> s.connected)
  }

  lemma {:induction false} AlwaysConsistent(s: State, events: seq<Event>, i: nat)
    requires Consistent(s) && i <= |events|
    ensures Consistent(StateAt(s, events, i))
    decreases i
  {
    if i > 0 {
      AlwaysConsistent(s, events, i - 1);
    }
  }

  /** The readings of the first `n` events' checks, oldest first. */
  function Readings(events: seq<Event>, n: nat): seq<Reading>
    requires n <= |events|
  {
    if n == 0 then []
    else Readings(events, n - 1) + if events[n - 1].Check? then [events[n - 1].reading] else []
  }

  function Last(first: Reading, readings: seq<Reading>): Reading {
    if readings == [] then first else readings[|readings| - 1]
  }

  /** How many readings differ from the one before, the first being compared with `first`. */
  function Changes(first: Reading, readings: seq<Reading>): nat {
    if readings == [] then 0
    else
      var n := |readings| - 1;
      Changes(first, readings[..n]) + if readings[n] != Last(first, readings[..n]) then 1 else 0
  }

  function Rounds(s: State, events: seq<Event>, n: nat): nat
    requires n <= |events|
  {
    if n == 0 then 0
    else Rounds(s, events, n - 1) + if Notifies(StateAt(s, events, n - 1), events[n - 1]) then 1 else 0
  }

  /**
   While subscribers remain, whoever comes and goes, the rounds of notification are exactly the
   changes among the baseline and the readings of the checks, and the baseline is the latest reading.
   */
  lemma {:induction false} RoundsAreChanges(s: State, events: seq<Event>, n: nat)
    requires Consistent(s) && n <= |events|
    requires forall i :: 0 <= i <= n ==> StateAt(s, events, i).subscribers != []
    ensures s.baseline.Some? && StateAt(s, events, n).baseline == Some(Last(s.baseline.value, Readings(events, n)))
    ensures Rounds(s, events, n) == Changes(s.baseline.value, Readings(events, n))
    decreases n
  {
    assert StateAt(s, events, 0).subscribers != [];
    if n > 0 {
      RoundsAreChanges(s, events, n - 1);
      AlwaysConsistent(s, events, n - 1);
      assert StateAt(s, events, n - 1).subscribers != [] && StateAt(s, events, n).subscribers != [];
      var e, earlier := events[n - 1], Readings(events, n - 1);
      if e.Check? {
        var readings := Readings(events, n);
        assert readings == earlier + [e.reading] && readings[..|readings| - 1] == earlier;
      } else {
        assert Readings(events, n) == earlier + [] == earlier;
      }
    }
  }
}
