// The smallest proxy, for explicit runs: one peer and one kind of descriptor.

module RmaOnePeer {
  import opened Results
  import opened RmaPeer
  import opened RmaProxy

  /** A PUT as the API function builds it; the enqueue gives it its sequence. */
  const PUT := Desc(Put, 0, 0, 0, 0, false, false, false)

  /** The proxy with one peer in a given phase. */
  function One(p: Peer, locked: bool, phase: Phase, pending: bool): Proxy {
    Proxy([p], [locked], phase, pending, false, false, false, {}, {})
  }
}
