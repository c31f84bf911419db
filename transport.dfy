/** The browser `WebSocket` as the hooks see it: its ready state and what `close()` does to it. */
module Transport {

  datatype ReadyState = Connecting | Open | Closing | Closed

  /** The numeric `readyState` constants of the WebSocket API. */
  function Code(r: ReadyState): (n: nat)
    ensures n < 4
  {
    match r
    case Connecting => 0
    case Open => 1
    case Closing => 2
    case Closed => 3
  }

  /** `close()`: a connecting or open socket starts closing; otherwise nothing happens. */
  function CloseRequested(r: ReadyState): (r': ReadyState)
    ensures r' == Closing || r' == Closed
    ensures r' == Closed <==> r == Closed
  {
    match r
    case Connecting => Closing
    case Open => Closing
    case Closing => Closing
    case Closed => Closed
  }

  /** `ws?.close()` on a reference that may still be empty. */
  function CloseIfPresent(s: Option<ReadyState>): (s': Option<ReadyState>)
    ensures s'.Some? <==> s.Some?
    ensures s.Some? ==> s'.value == CloseRequested(s.value)
  {
    match s
    case None => None
    case Some(r) => Some(CloseRequested(r))
  }

  import opened Wrappers
}
