/**
 * The glue between the feed and the store (components/AppShell.tsx): the
 * application shell subscribes one callback to the shared manager, and that
 * callback hands every frame that is an array to `updatePrices`.
 */
module Shell {
  import opened Wire
  import opened Store
  import opened Manager

  /** The shell's subscriber callback: an array frame goes to
      `updatePrices`, any other frame is ignored. */
  method ShellCallback(store: MarketStore, data: Payload)
    modifies store
    ensures data.Array? ==> store.priceMap == ApplyBatch(old(store.priceMap), data.items)
    ensures !data.Array? ==> store.priceMap == old(store.priceMap)
    ensures store.assets == old(store.assets) && store.activeSymbol == old(store.activeSymbol)
    ensures store.activeTicker == old(store.activeTicker) && store.searchQuery == old(store.searchQuery)
  {
    if data.Array? {
      store.UpdatePrices(data.items);
    }
  }

  /** One frame through the feed: the manager's `onmessage` fans it out, and
      the shell's callback, when `notify` reaches it, passes it on. The
      shell's own callback does not throw on a ticker array, so only the
      other subscribers in `othersThrowing` can cut the fan-out short. The
      price map moves by exactly one fold of the frame's tickers when the
      frame parsed, is an array and the shell is among the subscribers
      reached, and stays as it was otherwise; calls of other subscribers do
      not touch the store. */
  method DeliverFrame(m: WebSocketManager, store: MarketStore, shell: Callback,
                      h: nat, parsedOk: bool, data: Payload, othersThrowing: set<Callback>)
    requires m.Valid()
    requires h < |m.sockets| && m.sockets[h] == Open
    modifies store
    ensures store.priceMap ==
      if parsedOk && data.Array? && shell in Reached(m.subscribers, othersThrowing - {shell})
      then ApplyBatch(old(store.priceMap), data.items)
      else old(store.priceMap)
    ensures store.assets == old(store.assets) && store.activeSymbol == old(store.activeSymbol)
    ensures store.activeTicker == old(store.activeTicker) && store.searchQuery == old(store.searchQuery)
  {
    var log := m.OnMessage(h, parsedOk, data, othersThrowing - {shell});
    var i := 0;
    while i < |log|
      invariant 0 <= i <= |log|
      invariant store.priceMap ==
        if parsedOk && data.Array? && shell in m.subscribers[..i]
        then ApplyBatch(old(store.priceMap), data.items)
        else old(store.priceMap)
      invariant store.assets == old(store.assets) && store.activeSymbol == old(store.activeSymbol)
      invariant store.activeTicker == old(store.activeTicker) && store.searchQuery == old(store.searchQuery)
    {
      assert m.subscribers[..i + 1] == m.subscribers[..i] + [m.subscribers[i]];
      if log[i].cb == shell {
        assert shell !in m.subscribers[..i];
        ShellCallback(store, log[i].data);
      }
      i := i + 1;
    }
    assert parsedOk ==> m.subscribers[..i] == Reached(m.subscribers, othersThrowing - {shell});
  }
}
