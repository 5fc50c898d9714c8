/**
 * The per-component socket hook `useWebSocket` (hooks/useWebSocket.ts): a
 * component's own socket for one url, the last parsed message, and a
 * readyState that is CLOSED (3) or OPEN (1).
 *
 * One object is one mounted component. Its effect runs at mount and whenever
 * the url changes: the previous run's cleanup closes the socket that run
 * opened, then a non-null url gets a fresh socket. `sockets[h]` is the
 * browser's transport state of the h-th socket the component opened; every
 * socket keeps the handlers it was given, so a socket opened for an earlier
 * url still updates the component's state when its close event arrives.
 * After unmount React drops state updates, which the `mounted` flag models.
 */
module Hook {
  import opened Wire

  /** The effect's `if (!url) return;`: null and the empty string are both
      falsy, so neither opens a socket. */
  predicate HasUrl(u: Option<string>)
  {
    u.Some? && u.value != ""
  }

  /** The transport states after the cleanup of an effect run that opened
      socket `c`, if it opened one. */
  function AfterCleanup(sockets: seq<SocketState>, c: Option<nat>): (r: seq<SocketState>)
    requires c.Some? ==> c.value < |sockets|
    ensures |r| == |sockets|
    ensures forall h :: 0 <= h < |sockets| && Some(h) != c ==> r[h] == sockets[h]
    ensures c.Some? ==> !Live(r[c.value])
  {
    if c.Some? then sockets[c.value := CloseRequested(sockets[c.value])] else sockets
  }

  class WebSocketHook {
    var url: Option<string>
    var readyState: int
    var lastMessage: Option<Payload>
    var wsRef: Option<nat>
    var cleanup: Option<nat>
    var sockets: seq<SocketState>
    var socketUrls: seq<string>
    var mounted: bool

    /** Between events: only the socket of the current effect run can be
        live, and that socket was opened for the current url. */
    ghost predicate Valid()
      reads this
    {
      && |socketUrls| == |sockets|
      && (readyState == OPEN || readyState == CLOSED)
      && (wsRef.Some? ==> wsRef.value < |sockets|)
      && (cleanup.Some? <==> mounted && HasUrl(url))
      && (cleanup.Some? ==>
            && cleanup == wsRef
            && cleanup.value < |sockets|
            && url == Some(socketUrls[cleanup.value]))
      && (forall h :: 0 <= h < |sockets| && Some(h) != cleanup ==> !Live(sockets[h]))
    }

    /** The live sockets of the component. */
    ghost function LiveSockets(): set<nat>
      reads this
    {
      set h | 0 <= h < |sockets| && Live(sockets[h])
    }

    /** Cleanup of the previous effect run: close the socket it opened. */
    method RunCleanup()
      requires cleanup.Some? ==> cleanup.value < |sockets|
      modifies this
      ensures cleanup == None
      ensures sockets == AfterCleanup(old(sockets), old(cleanup))
      ensures url == old(url) && readyState == old(readyState) && lastMessage == old(lastMessage)
      ensures wsRef == old(wsRef) && socketUrls == old(socketUrls) && mounted == old(mounted)
    {
      if cleanup.Some? {
        sockets := sockets[cleanup.value := CloseRequested(sockets[cleanup.value])];
        cleanup := None;
      }
    }

    /** The effect body for url `u`: nothing for a null or empty url;
        otherwise open a socket, store it in the ref, and remember to close
        it. */
    method RunEffect(u: Option<string>)
      modifies this
      ensures url == u
      ensures !HasUrl(u) ==> sockets == old(sockets) && socketUrls == old(socketUrls)
      ensures !HasUrl(u) ==> wsRef == old(wsRef) && cleanup == old(cleanup)
      ensures HasUrl(u) ==> sockets == old(sockets) + [Connecting] && socketUrls == old(socketUrls) + [u.value]
      ensures HasUrl(u) ==> wsRef == Some(|old(sockets)|) && cleanup == wsRef
      ensures readyState == old(readyState) && lastMessage == old(lastMessage) && mounted == old(mounted)
    {
      url := u;
      if HasUrl(u) {
        var socket := |sockets|;
        sockets := sockets + [Connecting];
        socketUrls := socketUrls + [u.value];
        wsRef := Some(socket);
        cleanup := Some(socket);
      }
    }

    /** Mount with url `u`: the initial state, then the effect's first run.
        A null or empty url opens nothing and leaves the initial state as it
        is. */
    constructor (u: Option<string>)
      ensures Valid()
      ensures mounted && url == u
      ensures readyState == CLOSED && lastMessage == None
      ensures !HasUrl(u) ==> sockets == [] && socketUrls == [] && wsRef == None && cleanup == None
      ensures HasUrl(u) ==> sockets == [Connecting] && socketUrls == [u.value] && wsRef == Some(0) && cleanup == Some(0)
    {
      url := None;
      readyState := CLOSED;
      lastMessage := None;
      wsRef := None;
      cleanup := None;
      sockets := [];
      socketUrls := [];
      mounted := true;
      new;
      RunEffect(u);
    }

    /** A re-render with url `u`. The effect depends on the url only: with
        the same url nothing happens; with a new one the previous run's
        socket is closed and the effect runs again. Afterwards only a socket
        opened for `u` can be live. Neither readyState nor the last message
        is reset. */
    method Rerender(u: Option<string>)
      requires Valid() && mounted
      modifies this
      ensures Valid() && mounted && url == u
      ensures u == old(url) ==>
        && sockets == old(sockets) && socketUrls == old(socketUrls)
        && wsRef == old(wsRef) && cleanup == old(cleanup)
      ensures u != old(url) ==>
        && sockets == AfterCleanup(old(sockets), old(cleanup)) + (if HasUrl(u) then [Connecting] else [])
        && socketUrls == old(socketUrls) + (if HasUrl(u) then [u.value] else [])
        && wsRef == (if HasUrl(u) then Some(|old(sockets)|) else old(wsRef))
        && cleanup == (if HasUrl(u) then Some(|old(sockets)|) else None)
      ensures HasUrl(u) ==> LiveSockets() <= {wsRef.value} && socketUrls[wsRef.value] == u.value
      ensures !HasUrl(u) ==> LiveSockets() == {}
      ensures readyState == old(readyState) && lastMessage == old(lastMessage)
    {
      if u != url {
        RunCleanup();
        RunEffect(u);
      }
    }

    /** Unmount: the last cleanup closes the component's socket. */
    method Unmount()
      requires Valid() && mounted
      modifies this
      ensures Valid() && !mounted
      ensures LiveSockets() == {}
      ensures sockets == AfterCleanup(old(sockets), old(cleanup)) && cleanup == None
      ensures url == old(url) && wsRef == old(wsRef) && socketUrls == old(socketUrls)
      ensures readyState == old(readyState) && lastMessage == old(lastMessage)
    {
      RunCleanup();
      mounted := false;
    }

    /** `onopen`: readyState becomes OPEN. Only the current socket can be
        connecting. */
    method OnOpen(h: nat)
      requires Valid()
      requires h < |sockets| && sockets[h] == Connecting
      modifies this
      ensures Valid()
      ensures wsRef == Some(h) && readyState == OPEN
      ensures sockets == old(sockets)[h := Open]
      ensures lastMessage == old(lastMessage) && url == old(url) && wsRef == old(wsRef)
      ensures mounted == old(mounted) && cleanup == old(cleanup) && socketUrls == old(socketUrls)
    {
      sockets := sockets[h := Open];
      readyState := OPEN;
    }

    /** `onclose`, for whichever socket closed, current or not: readyState
        becomes CLOSED while the component is mounted. */
    method OnClose(h: nat)
      requires Valid()
      requires h < |sockets| && sockets[h] != Closed
      modifies this
      ensures Valid()
      ensures readyState == if old(mounted) then CLOSED else old(readyState)
      ensures sockets == old(sockets)[h := Closed]
      ensures lastMessage == old(lastMessage) && url == old(url) && wsRef == old(wsRef)
      ensures mounted == old(mounted) && cleanup == old(cleanup) && socketUrls == old(socketUrls)
    {
      sockets := sockets[h := Closed];
      if mounted {
        readyState := CLOSED;
      }
    }

    /** `onerror`: logged, and readyState becomes CLOSED while mounted. */
    method OnError(h: nat)
      requires Valid()
      requires h < |sockets| && sockets[h] != Closed
      modifies this
      ensures Valid()
      ensures readyState == if old(mounted) then CLOSED else old(readyState)
      ensures sockets == old(sockets) && lastMessage == old(lastMessage)
      ensures url == old(url) && wsRef == old(wsRef)
      ensures mounted == old(mounted) && cleanup == old(cleanup) && socketUrls == old(socketUrls)
    {
      if mounted {
        readyState := CLOSED;
      }
    }

    /** `onmessage`: a frame that parsed becomes the last message; one that
        did not is only logged. Only the current socket can be open. */
    method OnMessage(h: nat, parsedOk: bool, data: Payload)
      requires Valid()
      requires h < |sockets| && sockets[h] == Open
      modifies this
      ensures Valid()
      ensures wsRef == Some(h)
      ensures lastMessage == if parsedOk then Some(data) else old(lastMessage)
      ensures readyState == old(readyState) && sockets == old(sockets)
      ensures url == old(url) && wsRef == old(wsRef)
      ensures mounted == old(mounted) && cleanup == old(cleanup) && socketUrls == old(socketUrls)
    {
      if parsedOk {
        lastMessage := Some(data);
      }
    }
  }

  /** The hook's readyState follows events, not the current socket: after a
      url change the readyState is still OPEN while the new socket is only
      connecting, and when the old socket's close event arrives after the new
      socket has opened, readyState drops to CLOSED although the current
      socket is open. */
  method StaleSocketScenario(first: string, second: string)
    returns (afterSwitch: int, socketAfterSwitch: SocketState,
             afterStaleClose: int, socketAfterStaleClose: SocketState)
    requires first != second && first != "" && second != ""
    ensures afterSwitch == OPEN && socketAfterSwitch == Connecting
    ensures afterStaleClose == CLOSED && socketAfterStaleClose == Open
  {
    var hook := new WebSocketHook(Some(first));
    hook.OnOpen(0);
    hook.Rerender(Some(second));
    afterSwitch, socketAfterSwitch := hook.readyState, hook.sockets[hook.wsRef.value];
    hook.OnOpen(1);
    hook.OnClose(0);
    afterStaleClose, socketAfterStaleClose := hook.readyState, hook.sockets[hook.wsRef.value];
  }
}
