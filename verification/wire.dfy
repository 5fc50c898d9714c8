/**
 * Value types shared by the live price feed: the ticker record the exchange
 * streams, the parsed form of a socket frame, and the transport state of a
 * browser WebSocket as the feed's event handlers observe it.
 */
module Wire {

  datatype Option<+T> = None | Some(value: T)

  /** One entry of the exchange's ticker stream. Every numeric field stays the
      decimal string the exchange sent; nothing in the feed interprets it. */
  datatype Ticker = Ticker(
    s: string,  // symbol, e.g. "BTCUSDT"
    c: string,  // close (last) price
    o: string,  // open price
    h: string,  // high price
    l: string,  // low price
    v: string,  // base volume
    q: string   // quote volume
  )

  /** A frame after JSON parsing: either an array (of ticker objects) or any
      other JSON value, kept as its text. */
  datatype Payload = Array(items: seq<Ticker>) | NonArray(raw: string)

  /** The transport states of one WebSocket. */
  datatype SocketState = Connecting | Open | Closing | Closed

  /** A socket is live while it may still open or deliver messages. */
  predicate Live(st: SocketState)
  {
    st == Connecting || st == Open
  }

  /** What `close()` does to a socket: a live socket starts its closing
      handshake (and will later deliver a close event); a closing or closed
      socket is left as it is. */
  function CloseRequested(st: SocketState): (r: SocketState)
    ensures !Live(r)
    ensures r == Closed <==> st == Closed
  {
    if Live(st) then Closing else st
  }

  /** The readyState constants the hook stores. */
  const OPEN: int := 1
  const CLOSED: int := 3
}
