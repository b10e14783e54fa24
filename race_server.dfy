/**
 * The unguarded server's per-connection handler.  Every worker reads into the
 * one process-wide `shared_buffer` and later copies its request back out of
 * it, with nothing keeping other workers from clearing and overwriting the
 * buffer in between.  The handler is split at that point into a receive step
 * and a respond step, so that another worker's steps can be placed between
 * them explicitly.
 */
module RaceServer {
  import opened LibC
  import opened Transform
  import opened Log
  import opened Net
  import opened Worker

  /** The state all workers share: `shared_buffer`. */
  class SharedState {
    const buffer: array<byte>

    /**
     * The buffer is BUFFER_SIZE bytes and its last byte stays NUL: no read
     * reaches it, and clearing and terminating write only NULs.
     */
    ghost predicate Valid()
      reads buffer
    {
      buffer.Length == BUFFER_SIZE && buffer[BUFFER_SIZE - 1] == NUL
    }

    /** A global array starts out all zero. */
    constructor ()
      ensures Valid() && fresh(buffer)
      ensures buffer[..] == Zeros(BUFFER_SIZE)
    {
      buffer := new byte[BUFFER_SIZE](_ => NUL);
    }
  }

  /**
   * The first half of handle_client: clear the shared buffer, log CONNECTED
   * and read at most BUFFER_SIZE - 1 bytes into it.  A failed read closes the
   * connection with no further log record; a successful one writes the
   * terminator after the bytes read.  Either way the shared buffer ends up
   * holding exactly the bytes this read delivered, then zeros.
   */
  method ReceiveStep(shared: SharedState, client: Socket, log: Logger, pid: int, tid: int)
    returns (bytesRead: int)
    requires shared.Valid()
    modifies shared.buffer, client, log
    ensures shared.Valid()
    ensures bytesRead == old(client.ReadResult(BUFFER_SIZE - 1))
    ensures shared.buffer[..] == old(client.Delivered(BUFFER_SIZE - 1))
                                 + Zeros(BUFFER_SIZE - |old(client.Delivered(BUFFER_SIZE - 1))|)
    ensures log.records == old(log.records) + [Record(Connected, pid, tid, Dash, Dash)]
    ensures client.sent == old(client.sent)
    ensures client.closed == (old(client.closed) || bytesRead <= 0)
    ensures client.incoming == old(client.incoming)[|old(client.Delivered(BUFFER_SIZE - 1))|..]
    ensures client.failed == old(client.failed)
  {
    ghost var delivered := client.Delivered(BUFFER_SIZE - 1);
    DashEcho();

    Memset(shared.buffer, NUL);
    log.Write(Connected, pid, tid, Dash, Dash);

    bytesRead := client.Read(shared.buffer, BUFFER_SIZE - 1);
    if bytesRead <= 0 {
      client.Close();
      assert shared.buffer[..] == delivered + Zeros(BUFFER_SIZE);
      return;
    }
    shared.buffer[bytesRead] := NUL;
    assert shared.buffer[..] == delivered + Zeros(BUFFER_SIZE - bytesRead);
  }

  /**
   * The second half of handle_client: log RECEIVED, copy the shared buffer,
   * reverse the copy, respond and close.  The response is the reversal of
   * whatever the shared buffer holds now, whoever put it there.
   */
  method RespondStep(shared: SharedState, client: Socket, log: Logger, pid: int, tid: int)
    requires shared.Valid()
    modifies client, log
    ensures client.closed
    ensures client.incoming == old(client.incoming) && client.failed == old(client.failed)
    ensures client.sent == old(client.sent) + Reverse(CStr(shared.buffer[..]))
    ensures log.records == old(log.records)
                           + ResponseLog(pid, tid, CStr(shared.buffer[..]), Reverse(CStr(shared.buffer[..])))
  {
    TerminatedByNulAt(shared.buffer[..], BUFFER_SIZE - 1);
    Respond(shared.buffer, client, log, pid, tid);
    client.Close();
  }

  /**
   * handle_client when no other worker touches the shared buffer between its
   * two halves: a failed read leaves only CONNECTED in the log and sends
   * nothing; otherwise the response is the reversal of this worker's own
   * request.  Either way the shared buffer is left holding this worker's
   * bytes, which is what any other worker copies next.
   */
  method HandleClient(shared: SharedState, client: Socket, log: Logger, pid: int, tid: int)
    requires shared.Valid()
    modifies shared.buffer, client, log
    ensures shared.Valid()
    ensures shared.buffer[..] == old(client.Delivered(BUFFER_SIZE - 1))
                                 + Zeros(BUFFER_SIZE - |old(client.Delivered(BUFFER_SIZE - 1))|)
    ensures client.closed
    ensures client.incoming == old(client.incoming)[|old(client.Delivered(BUFFER_SIZE - 1))|..]
    ensures client.failed == old(client.failed)
    ensures old(client.ReadResult(BUFFER_SIZE - 1)) <= 0 ==>
      client.sent == old(client.sent) &&
      log.records == old(log.records) + [Record(Connected, pid, tid, Dash, Dash)]
    ensures old(client.ReadResult(BUFFER_SIZE - 1)) > 0 ==>
      var request := CStr(old(client.Delivered(BUFFER_SIZE - 1)));
      var response := Reverse(request);
      |response| <= BUFFER_SIZE - 1 &&
      client.sent == old(client.sent) + response &&
      log.records == old(log.records) + [Record(Connected, pid, tid, Dash, Dash)]
                                      + ResponseLog(pid, tid, request, response)
  {
    ghost var delivered := client.Delivered(BUFFER_SIZE - 1);
    var bytesRead := ReceiveStep(shared, client, log, pid, tid);
    if bytesRead > 0 {
      CStrOfTerminatedData(delivered, Zeros(BUFFER_SIZE - bytesRead));
      RespondStep(shared, client, log, pid, tid);
    }
  }

  /**
   * Two clients, "apple" and "banana"; the second worker's read lands between
   * the first worker's read and its copy.  Both clients get "ananab": the
   * first one is sent the reversal of the other client's request.
   */
  method OverlappingReads() returns (replyA: seq<byte>, replyB: seq<byte>)
    ensures replyA == replyB == Reverse(Banana)
    ensures replyA != Reverse(Apple)
  {
    var shared := new SharedState();
    var log := new Logger();
    var a := new Socket(Apple, false);
    var b := new Socket(Banana, false);
    var readA := ReceiveStep(shared, a, log, 1, 10);
    var readB := ReceiveStep(shared, b, log, 1, 11);
    CStrOfTerminatedData(Banana, Zeros(BUFFER_SIZE - |Banana|));
    StrLenUnique(Banana, |Banana|);
    RespondStep(shared, a, log, 1, 10);
    RespondStep(shared, b, log, 1, 11);
    replyA, replyB := a.sent, b.sent;
  }

  /**
   * A client sends "apple"; before its worker copies the request, another
   * connection is accepted whose peer sends nothing.  That worker clears the
   * shared buffer and gives up, and the first client is sent an empty
   * response.
   */
  method ClearedBeforeCopy() returns (replyA: seq<byte>, replyB: seq<byte>)
    ensures replyA == [] && replyB == []
  {
    var shared := new SharedState();
    var log := new Logger();
    var a := new Socket(Apple, false);
    var b := new Socket([], false);
    var readA := ReceiveStep(shared, a, log, 1, 10);
    var readB := ReceiveStep(shared, b, log, 1, 11);
    StrLenUnique(shared.buffer[..], 0);
    RespondStep(shared, a, log, 1, 10);
    replyA, replyB := a.sent, b.sent;
  }

  /**
   * A client sends "banana"; before its worker copies the request, a whole
   * handler for a client sending "apple" runs.  That client is answered
   * correctly, and the "banana" client is sent "elppa" too.
   */
  method WholeHandlerBeforeCopy() returns (replyA: seq<byte>, replyB: seq<byte>)
    ensures replyA == replyB == Reverse(Apple)
    ensures replyB != Reverse(Banana)
  {
    var shared := new SharedState();
    var log := new Logger();
    var a := new Socket(Apple, false);
    var b := new Socket(Banana, false);
    var readB := ReceiveStep(shared, b, log, 1, 11);
    assert a.Delivered(BUFFER_SIZE - 1) == Apple[..|Apple|] == Apple;
    StrLenUnique(Apple, |Apple|);
    HandleClient(shared, a, log, 1, 10);
    CStrOfTerminatedData(Apple, Zeros(BUFFER_SIZE - |Apple|));
    RespondStep(shared, b, log, 1, 11);
    replyA, replyB := a.sent, b.sent;
  }
}
