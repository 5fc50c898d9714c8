/**
 * The shared feed connection (lib/websocketManager.ts): one WebSocket to the
 * exchange's all-tickers stream, reconnected with capped exponential backoff,
 * whose parsed frames are fanned out to a set of subscriber callbacks.
 *
 * The browser's transport is part of the state: `sockets[h]` is the transport
 * state of the h-th socket the manager created, and every event names the
 * socket that raised it. Handlers never look at which socket that is: the
 * source does not detach the handlers of a socket it replaces. Timers are the
 * list of reconnect delays handed to `setTimeout` and not yet fired; wall-clock
 * time is not modelled, so any pending timer may fire next.
 */
module Manager {
  import opened Wire

  /** A subscriber callback, identified the way a JavaScript Set compares
      functions: by identity. What a callback does is up to its owner. */
  type Callback = nat

  /** The function `subscribe` returns: calling it deletes its callback. */
  datatype Disposer = Disposer(cb: Callback)

  /** One call of a subscriber callback with a parsed frame. */
  datatype Delivery = Delivery(cb: Callback, data: Payload)

  const MAX_RECONNECT_ATTEMPTS: nat := 10
  const BASE_DELAY_MS: nat := 1000
  const MAX_DELAY_MS: nat := 30000

  function Pow2(n: nat): (r: nat)
    ensures r >= 1
  {
    if n == 0 then 1 else 2 * Pow2(n - 1)
  }

  lemma {:induction false} Pow2Monotone(m: nat, n: nat)
    requires m <= n
    ensures Pow2(m) <= Pow2(n)
  {
    if m < n {
      Pow2Monotone(m, n - 1);
    }
  }

  /** The delay before reconnect attempt `n`: `min(1000 * 2^n, 30000)` ms. */
  function Backoff(n: nat): (d: nat)
    ensures BASE_DELAY_MS <= d <= MAX_DELAY_MS
  {
    if BASE_DELAY_MS * Pow2(n) < MAX_DELAY_MS then BASE_DELAY_MS * Pow2(n) else MAX_DELAY_MS
  }

  /** A later attempt never waits less than an earlier one. */
  lemma BackoffMonotone(m: nat, n: nat)
    requires m <= n
    ensures Backoff(m) <= Backoff(n)
  {
    Pow2Monotone(m, n);
  }

  /** Each delay is twice the previous one until the cap is reached. */
  lemma BackoffDoubles(n: nat)
    ensures Backoff(n + 1) == if 2 * Backoff(n) < MAX_DELAY_MS then 2 * Backoff(n) else MAX_DELAY_MS
  {
  }

  /** From the sixth attempt on (1000 * 2^5 > 30000) the delay is the cap. */
  lemma BackoffCapped(n: nat)
    requires n >= 5
    ensures Backoff(n) == MAX_DELAY_MS
  {
    Pow2Monotone(5, n);
  }

  /** The delays of the ten attempts the manager allows. */
  lemma BackoffSchedule()
    ensures [Backoff(0), Backoff(1), Backoff(2), Backoff(3), Backoff(4),
             Backoff(5), Backoff(6), Backoff(7), Backoff(8), Backoff(9)]
         == [1000, 2000, 4000, 8000, 16000, 30000, 30000, 30000, 30000, 30000]
  {
  }

  /** A JavaScript Set of callbacks is a sequence in insertion order without
      duplicates. */
  ghost predicate NoDuplicates(s: seq<Callback>)
  {
    forall i, j :: 0 <= i < j < |s| ==> s[i] != s[j]
  }

  /** `Set.add`: a new callback goes to the end; an existing one stays where
      it is and is not added twice. */
  function SetAdd(s: seq<Callback>, cb: Callback): (r: seq<Callback>)
    ensures forall x :: x in r <==> x in s || x == cb
    ensures |s| <= |r| <= |s| + 1 && r[..|s|] == s
    ensures cb in s ==> r == s
    ensures NoDuplicates(s) ==> NoDuplicates(r)
  {
    if cb in s then s else s + [cb]
  }

  /** `Set.delete`: the callback is gone and every other one keeps its place. */
  function SetDelete(s: seq<Callback>, cb: Callback): (r: seq<Callback>)
    ensures forall x :: x in r <==> x in s && x != cb
    ensures cb !in s ==> r == s
    ensures NoDuplicates(s) ==> NoDuplicates(r)
    ensures NoDuplicates(s) && cb in s ==> |r| == |s| - 1
  {
    if s == [] then []
    else if s[0] == cb then SetDelete(s[1..], cb)
    else
      var rest := SetDelete(s[1..], cb);
      assert NoDuplicates(s) ==> s[0] !in s[1..];
      [s[0]] + rest
  }

  lemma {:induction false} SetDeleteAppend(a: seq<Callback>, b: seq<Callback>, cb: Callback)
    ensures SetDelete(a + b, cb) == SetDelete(a, cb) + SetDelete(b, cb)
  {
    if a == [] {
      assert a + b == b;
    } else {
      assert (a + b)[1..] == a[1..] + b;
      SetDeleteAppend(a[1..], b, cb);
    }
  }

  /** The disposer removes exactly its callback, at whatever position it
      sits, and leaves the others in their order. */
  lemma DisposeRemovesOnlyItsCallback(a: seq<Callback>, cb: Callback, b: seq<Callback>)
    requires cb !in a && cb !in b
    ensures SetDelete(a + [cb] + b, cb) == a + b
  {
    SetDeleteAppend(a + [cb], b, cb);
    SetDeleteAppend(a, [cb], cb);
  }

  /** Subscribing a new callback and calling its disposer restores the
      subscriber set exactly. */
  lemma SubscribeThenDispose(s: seq<Callback>, cb: Callback)
    requires cb !in s
    ensures SetDelete(SetAdd(s, cb), cb) == s
  {
    DisposeRemovesOnlyItsCallback(s, cb, []);
    assert s + [cb] + [] == s + [cb];
    assert s + [] == s;
  }

  /** Calling a disposer a second time changes nothing. */
  lemma DisposeTwiceIsNoOp(s: seq<Callback>, cb: Callback)
    ensures SetDelete(SetDelete(s, cb), cb) == SetDelete(s, cb)
  {
  }

  /** The position of the first subscriber whose callback throws on a
      frame, or the number of subscribers when none does. */
  function FirstThrow(subs: seq<Callback>, throwing: set<Callback>): (k: nat)
    ensures k <= |subs|
    ensures forall i :: 0 <= i < k ==> subs[i] !in throwing
    ensures k < |subs| ==> subs[k] in throwing
  {
    if subs == [] then 0
    else if subs[0] in throwing then 0
    else 1 + FirstThrow(subs[1..], throwing)
  }

  /** The first-throw position is the only one with those two properties. */
  lemma FirstThrowUnique(subs: seq<Callback>, throwing: set<Callback>, k: nat)
    requires k <= |subs|
    requires forall i :: 0 <= i < k ==> subs[i] !in throwing
    requires k < |subs| ==> subs[k] in throwing
    ensures FirstThrow(subs, throwing) == k
  {
  }

  /** The subscribers a `forEach` calls: every one up to and including the
      first that throws. */
  function Reached(subs: seq<Callback>, throwing: set<Callback>): seq<Callback>
  {
    var k := FirstThrow(subs, throwing);
    if k < |subs| then subs[..k + 1] else subs
  }

  /** The calls made with one frame, one per callback in order. */
  function Deliveries(cbs: seq<Callback>, data: Payload): (r: seq<Delivery>)
    ensures |r| == |cbs|
    ensures forall i :: 0 <= i < |cbs| ==> r[i] == Delivery(cbs[i], data)
  {
    if cbs == [] then [] else [Delivery(cbs[0], data)] + Deliveries(cbs[1..], data)
  }

  lemma DeliveriesAppend(a: seq<Callback>, b: seq<Callback>, data: Payload)
    ensures Deliveries(a + b, data) == Deliveries(a, data) + Deliveries(b, data)
  {
  }

  /** When no callback throws, a frame reaches every subscriber exactly once
      and nobody else. */
  lemma {:induction false} NoThrowReachesAll(subs: seq<Callback>, throwing: set<Callback>, data: Payload)
    requires NoDuplicates(subs)
    requires forall i :: 0 <= i < |subs| ==> subs[i] !in throwing
    ensures Reached(subs, throwing) == subs
    ensures forall cb :: Delivery(cb, data) in Deliveries(subs, data) <==> cb in subs
    ensures forall i, j :: 0 <= i < j < |subs| ==> Deliveries(subs, data)[i].cb != Deliveries(subs, data)[j].cb
  {
    FirstThrowUnique(subs, throwing, |subs|);
    var d := Deliveries(subs, data);
    forall cb | cb in subs ensures Delivery(cb, data) in d {
      var k :| 0 <= k < |subs| && subs[k] == cb;
      assert d[k] == Delivery(cb, data);
    }
  }

  /** The connection manager. `maxReconnectAttempts` is a field the source
      never reassigns. */
  class WebSocketManager {
    var ws: Option<nat>
    var sockets: seq<SocketState>
    var isConnected: bool
    var reconnectAttempts: nat
    const maxReconnectAttempts: nat
    var subscribers: seq<Callback>
    var pendingTimers: seq<nat>

    /** What holds between events: only the current socket can be live, at
        most one reconnect is pending and then the current socket is closed,
        `isConnected` mirrors the current socket being open, and the attempt
        counter never passes the cap. */
    ghost predicate Valid()
      reads this
    {
      && maxReconnectAttempts == MAX_RECONNECT_ATTEMPTS
      && ws == Some(|sockets| - 1)
      && (forall h :: 0 <= h < |sockets| - 1 ==> sockets[h] == Closed)
      && (isConnected <==> sockets[|sockets| - 1] == Open)
      && reconnectAttempts <= maxReconnectAttempts
      && |pendingTimers| <= 1
      && (pendingTimers != [] ==>
            && sockets[|sockets| - 1] == Closed
            && reconnectAttempts < maxReconnectAttempts
            && pendingTimers[0] == Backoff(reconnectAttempts))
      && NoDuplicates(subscribers)
    }

    /** The module-level singleton, built explicitly: the constructor
        connects at once. */
    constructor ()
      ensures Valid()
      ensures ws == Some(0) && sockets == [Connecting]
      ensures !isConnected && reconnectAttempts == 0
      ensures subscribers == [] && pendingTimers == []
    {
      ws := None;
      sockets := [];
      isConnected := false;
      reconnectAttempts := 0;
      maxReconnectAttempts := MAX_RECONNECT_ATTEMPTS;
      subscribers := [];
      pendingTimers := [];
      new;
      Connect();
    }

    /** `connect`: close the current socket, if any, then open a new one to
        the all-tickers stream, which becomes the current socket. */
    method Connect()
      requires ws.Some? ==> ws.value < |sockets|
      modifies this
      ensures ws == Some(|old(sockets)|)
      ensures sockets == (if old(ws).Some?
                          then old(sockets)[old(ws).value := CloseRequested(old(sockets)[old(ws).value])]
                          else old(sockets)) + [Connecting]
      ensures isConnected == old(isConnected) && reconnectAttempts == old(reconnectAttempts)
      ensures subscribers == old(subscribers) && pendingTimers == old(pendingTimers)
    {
      if ws.Some? {
        sockets := sockets[ws.value := CloseRequested(sockets[ws.value])];
      }
      ws := Some(|sockets|);
      sockets := sockets + [Connecting];
    }

    /** `onopen`: connected, and the attempt counter starts over. Only the
        current socket can be connecting, so it is the one that opened. */
    method OnOpen(h: nat)
      requires Valid()
      requires h < |sockets| && sockets[h] == Connecting
      modifies this
      ensures Valid()
      ensures old(ws) == Some(h)
      ensures isConnected && reconnectAttempts == 0
      ensures sockets == old(sockets)[h := Open]
      ensures ws == old(ws) && subscribers == old(subscribers) && pendingTimers == old(pendingTimers)
    {
      isConnected := true;
      reconnectAttempts := 0;
      sockets := sockets[h := Open];
    }

    /** `notify`: `forEach` calls the subscribers in the Set's insertion
        order. A callback that throws ends the `forEach`, so the subscribers
        after it miss this frame; `throwing` names the callbacks that throw
        on it. `threw` says whether the exception escaped. Nothing in the
        manager changes. */
    method Notify(data: Payload, throwing: set<Callback>) returns (log: seq<Delivery>, threw: bool)
      ensures log == Deliveries(Reached(subscribers, throwing), data)
      ensures threw <==> FirstThrow(subscribers, throwing) < |subscribers|
      ensures NoDuplicates(subscribers) ==> forall i, j :: 0 <= i < j < |log| ==> log[i].cb != log[j].cb
    {
      log := [];
      threw := false;
      var i := 0;
      while i < |subscribers| && !threw
        invariant 0 <= i <= |subscribers|
        invariant log == Deliveries(subscribers[..i], data)
        invariant forall k :: 0 <= k < i - 1 ==> subscribers[k] !in throwing
        invariant !threw ==> forall k :: 0 <= k < i ==> subscribers[k] !in throwing
        invariant threw ==> 0 < i && subscribers[i - 1] in throwing
      {
        assert subscribers[..i + 1] == subscribers[..i] + [subscribers[i]];
        DeliveriesAppend(subscribers[..i], [subscribers[i]], data);
        log := log + [Delivery(subscribers[i], data)];
        threw := subscribers[i] in throwing;
        i := i + 1;
      }
      FirstThrowUnique(subscribers, throwing, if threw then i - 1 else i);
      assert Reached(subscribers, throwing) == subscribers[..i];
      assert forall k :: 0 <= k < |log| ==> log[k].cb == subscribers[k];
    }

    /** `onmessage`: a frame that parsed goes to the subscribers `notify`
        reaches, which is all of them unless one throws; one that did not
        parse is dropped (only logged) and reaches nobody. An exception from
        a subscriber is caught and logged as a parse error. No connection
        state changes either way. */
    method OnMessage(h: nat, parsedOk: bool, data: Payload, throwing: set<Callback>)
      returns (log: seq<Delivery>)
      requires Valid()
      requires h < |sockets| && sockets[h] == Open
      ensures !parsedOk ==> log == []
      ensures parsedOk ==> log == Deliveries(Reached(subscribers, throwing), data)
    {
      if parsedOk {
        var threw;
        log, threw := Notify(data, throwing);
      } else {
        log := [];
      }
    }

    /** `attemptReconnect`: at or past the cap, give up (only logged);
        otherwise schedule one timer with the backoff delay of the current
        attempt. */
    method AttemptReconnect()
      modifies this
      ensures pendingTimers == old(pendingTimers) +
        (if old(reconnectAttempts) >= maxReconnectAttempts then [] else [Backoff(old(reconnectAttempts))])
      ensures ws == old(ws) && sockets == old(sockets) && isConnected == old(isConnected)
      ensures reconnectAttempts == old(reconnectAttempts) && subscribers == old(subscribers)
    {
      if reconnectAttempts >= maxReconnectAttempts {
        return;
      }
      var delay := Backoff(reconnectAttempts);
      pendingTimers := pendingTimers + [delay];
    }

    /** `onclose`: disconnected, and exactly one reconnect attempt is
        evaluated. The closing socket is always the current one. */
    method OnClose(h: nat)
      requires Valid()
      requires h < |sockets| && sockets[h] != Closed
      modifies this
      ensures Valid()
      ensures old(ws) == Some(h)
      ensures !isConnected
      ensures sockets == old(sockets)[h := Closed]
      ensures old(pendingTimers) == []
      ensures pendingTimers ==
        if old(reconnectAttempts) >= maxReconnectAttempts then [] else [Backoff(old(reconnectAttempts))]
      ensures ws == old(ws) && reconnectAttempts == old(reconnectAttempts)
      ensures subscribers == old(subscribers)
    {
      isConnected := false;
      sockets := sockets[h := Closed];
      AttemptReconnect();
    }

    /** `onerror`: only logged; the close event that follows does the work. */
    method OnError(h: nat)
      requires Valid()
      requires h < |sockets| && sockets[h] != Closed
      ensures unchanged(this)
    {
    }

    /** A reconnect timer fires: count the attempt, then connect again. The
        socket it replaces has already closed, so the `close()` call of
        `connect` finds nothing to do. */
    method TimerFire(i: nat)
      requires Valid()
      requires i < |pendingTimers|
      modifies this
      ensures Valid()
      ensures reconnectAttempts == old(reconnectAttempts) + 1
      ensures pendingTimers == old(pendingTimers)[..i] + old(pendingTimers)[i + 1..] == []
      ensures sockets == old(sockets) + [Connecting]
      ensures ws == Some(|old(sockets)|)
      ensures !isConnected && subscribers == old(subscribers)
    {
      pendingTimers := pendingTimers[..i] + pendingTimers[i + 1..];
      reconnectAttempts := reconnectAttempts + 1;
      Connect();
      assert sockets[..|sockets| - 1] == old(sockets);
    }

    /** `subscribe`: add the callback (once) and hand back its disposer. */
    method Subscribe(cb: Callback) returns (d: Disposer)
      requires Valid()
      modifies this
      ensures Valid()
      ensures d.cb == cb
      ensures subscribers == SetAdd(old(subscribers), cb)
      ensures ws == old(ws) && sockets == old(sockets) && isConnected == old(isConnected)
      ensures reconnectAttempts == old(reconnectAttempts) && pendingTimers == old(pendingTimers)
    {
      subscribers := SetAdd(subscribers, cb);
      d := Disposer(cb);
    }

    /** Calling a disposer: delete its callback from the set. */
    method Dispose(d: Disposer)
      requires Valid()
      modifies this
      ensures Valid()
      ensures subscribers == SetDelete(old(subscribers), d.cb)
      ensures ws == old(ws) && sockets == old(sockets) && isConnected == old(isConnected)
      ensures reconnectAttempts == old(reconnectAttempts) && pendingTimers == old(pendingTimers)
    {
      subscribers := SetDelete(subscribers, d.cb);
    }
  }

  /** A list of the delays of attempts 0 to 9, in order, is the schedule. */
  lemma RetryDelays(delays: seq<nat>)
    requires |delays| == MAX_RECONNECT_ATTEMPTS
    requires forall i :: 0 <= i < |delays| ==> delays[i] == Backoff(i)
    ensures delays == [1000, 2000, 4000, 8000, 16000, 30000, 30000, 30000, 30000, 30000]
  {
    BackoffSchedule();
    assert delays == [Backoff(0), Backoff(1), Backoff(2), Backoff(3), Backoff(4),
                      Backoff(5), Backoff(6), Backoff(7), Backoff(8), Backoff(9)];
  }

  /** One failed retry: the pending timer fires and the new socket closes
      before it opens. The attempt is counted, and the next timer is
      scheduled with the next delay unless the cap is reached. */
  method FailedRetry(m: WebSocketManager)
    requires m.Valid() && m.pendingTimers != []
    modifies m
    ensures m.Valid()
    ensures m.reconnectAttempts == old(m.reconnectAttempts) + 1
    ensures m.pendingTimers ==
      if m.reconnectAttempts >= MAX_RECONNECT_ATTEMPTS then [] else [Backoff(m.reconnectAttempts)]
  {
    m.TimerFire(0);
    m.OnClose(|m.sockets| - 1);
  }

  /** When no connection attempt ever succeeds, the manager retries exactly
      ten times, waiting 1s, 2s, 4s, 8s, 16s and then 30s five times, and
      after the eleventh failure schedules nothing more. */
  method RetriesUntilExhausted() returns (delays: seq<nat>, attempts: nat, scheduled: nat)
    ensures delays == [1000, 2000, 4000, 8000, 16000, 30000, 30000, 30000, 30000, 30000]
    ensures attempts == MAX_RECONNECT_ATTEMPTS && scheduled == 0
  {
    var m := new WebSocketManager();
    delays := [];
    m.OnClose(0);
    while m.pendingTimers != []
      invariant m.Valid()
      invariant |delays| == m.reconnectAttempts
      invariant forall i :: 0 <= i < |delays| ==> delays[i] == Backoff(i)
      invariant m.pendingTimers == [] ==> m.reconnectAttempts == MAX_RECONNECT_ATTEMPTS
      decreases MAX_RECONNECT_ATTEMPTS - m.reconnectAttempts
    {
      delays := delays + [m.pendingTimers[0]];
      FailedRetry(m);
    }
    RetryDelays(delays);
    attempts := m.reconnectAttempts;
    scheduled := |m.pendingTimers|;
  }
}
