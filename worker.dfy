/**
 * What both servers' handlers do once a request sits NUL-terminated in a
 * 1024-byte buffer: log RECEIVED, copy the string into a response buffer
 * with strncpy, reverse it in place, log PROCESSED, write the response back
 * and log RESPONDED.  The guarded server runs it on its local buffer, the
 * racy one on the process-wide buffer.
 */
module Worker {
  import opened LibC
  import opened Transform
  import opened Log
  import opened Net

  /** BUFFER_SIZE in both servers. */
  const BUFFER_SIZE: nat := 1024

  /** The log records of a successful exchange after CONNECTED, in order. */
  function ResponseLog(pid: int, tid: int, request: seq<byte>, response: seq<byte>): (r: seq<Record>)
  {
    [Record(Received, pid, tid, request, Dash),
     Record(Processed, pid, tid, request, response),
     Record(Responded, pid, tid, request, response)]
  }

  /**
   * The response buffer: strncpy of the request buffer, reversed in place by
   * reverse_string.  It holds the reversal of the request's C string, and a
   * terminator.
   */
  method ReversedCopy(buffer: array<byte>) returns (response: array<byte>)
    requires buffer.Length == BUFFER_SIZE && Terminated(buffer[..])
    ensures fresh(response) && response.Length == BUFFER_SIZE
    ensures Terminated(response[..])
    ensures CStr(response[..]) == Reverse(CStr(buffer[..]))
  {
    response := new byte[BUFFER_SIZE];
    StrNCpy(response, buffer, BUFFER_SIZE);
    ghost var copy := response[..];
    assert copy == response[..BUFFER_SIZE] == StrNCpyResult(buffer[..], BUFFER_SIZE);
    assert buffer[..] == buffer[..][..BUFFER_SIZE];
    assert Terminated(copy) && CStr(copy) == CStr(buffer[..]);
    ReverseString(response);
    ReverseCStringKeepsLength(copy);
  }

  /**
   * Sends back the reversal of the C string held in `buffer` at the copy,
   * and logs the three steps; the buffer itself is not changed.
   */
  method Respond(buffer: array<byte>, client: Socket, log: Logger, pid: int, tid: int)
    requires buffer.Length == BUFFER_SIZE && Terminated(buffer[..])
    modifies client, log
    ensures client.sent == old(client.sent) + Reverse(CStr(buffer[..]))
    ensures |Reverse(CStr(buffer[..]))| <= BUFFER_SIZE - 1
    ensures log.records == old(log.records) + ResponseLog(pid, tid, CStr(buffer[..]), Reverse(CStr(buffer[..])))
    ensures client.incoming == old(client.incoming) && client.failed == old(client.failed)
    ensures client.closed == old(client.closed)
  {
    ghost var request := CStr(buffer[..]);
    DashEcho();
    log.Write(Received, pid, tid, buffer[..], Dash);

    var response := ReversedCopy(buffer);

    log.Write(Processed, pid, tid, buffer[..], response[..]);
    client.Write(response, StrLen(response[..]));
    log.Write(Responded, pid, tid, buffer[..], response[..]);
  }

  /** Sample requests, "apple" and "banana", and the response "elppa". */
  const Apple: seq<byte> := [97, 112, 112, 108, 101]
  const Banana: seq<byte> := [98, 97, 110, 97, 110, 97]
  const Elppa: seq<byte> := [101, 108, 112, 112, 97]

  /** The sample requests hold no NUL, so each is its own C string. */
  lemma SamplesAreCStrings()
    ensures CStr(Apple) == Apple && CStr(Banana) == Banana
  {
    StrLenUnique(Apple, |Apple|);
    StrLenUnique(Banana, |Banana|);
  }

  /** The response to "apple" is "elppa". */
  lemma AppleReversed()
    ensures Reverse(Apple) == Elppa
  {
  }
}
