/** The receive side of a stream socket, as both peers use it. The operating system's sockets
    are not part of this model: a socket's inbound side is the bytes that have arrived and not yet
    been consumed, plus whether the connection is still open, closed by the peer, or failed. */
module Transport {
  import opened CStrings

  datatype Status = Open | Closed | Broken

  datatype Inbound = Inbound(pending: seq<byte>, status: Status)

  /** What recv(socket, buf, n, MSG_PEEK) reports.
      Failed: -1 with an error set. NoData: nothing has arrived on an open socket (a blocking
      socket waits; a non-blocking one returns -1 with no error). Got: the bytes copied, whose
      count is the return value (0 once the peer has closed and everything was consumed). */
  datatype Peeked = Failed | NoData | Got(data: seq<byte>)

  function Min(a: nat, b: nat): nat
  {
    if a <= b then a else b
  }

  /** Peeking copies the first bytes available, up to n, and consumes nothing. */
  function Peek(rx: Inbound, n: nat): (r: Peeked)
    ensures r.Failed? <==> rx.status == Broken
    ensures r.NoData? <==> rx.status == Open && rx.pending == []
    ensures r.Got? ==> |r.data| == Min(n, |rx.pending|) && r.data == rx.pending[..|r.data|]
  {
    if rx.status == Broken then Failed
    else if rx.pending == [] && rx.status == Open then NoData
    else Got(rx.pending[..Min(n, |rx.pending|)])
  }

  datatype Received = Received(data: seq<byte>, rest: Inbound)

  /** recv(socket, buf, n, 0): removes and returns the first bytes available, up to n. */
  function Recv(rx: Inbound, n: nat): (r: Received)
    ensures |r.data| == Min(n, |rx.pending|)
    ensures r.data == rx.pending[..|r.data|] && r.rest.pending == rx.pending[|r.data|..]
    ensures r.rest.status == rx.status
  {
    var k := Min(n, |rx.pending|);
    Received(rx.pending[..k], Inbound(rx.pending[k..], rx.status))
  }

  /** The bytes a send(socket, frame, |frame|, 0) call that returned `result` put on the wire: a
      prefix of the frame of that length, nothing on failure (-1). */
  function Transfer(frame: seq<byte>, result: int): (w: seq<byte>)
    ensures |w| <= |frame| && w == frame[..|w|]
    ensures 0 <= result <= |frame| ==> |w| == result
    ensures !(0 <= result <= |frame|) ==> w == []
  {
    if 0 <= result <= |frame| then frame[..result] else []
  }
}
