/**
 * The guarded server's per-connection handler.  Each worker reads into its
 * own 1024-byte buffer and runs read, transform and write while holding the
 * semaphore, which it returns on both exit paths.  Clearing the buffer and
 * logging CONNECTED happen before the semaphore is taken, so the handler is
 * split there: other workers' connect steps may fall between the two parts.
 */
module FixedServer {
  import opened LibC
  import opened Transform
  import opened Log
  import opened Net
  import opened Sync
  import opened Worker

  /** The semaphore's initial count: one worker at a time in the critical section. */
  const INITIAL_PERMITS: nat := 1

  /**
   * The part of handle_client before the critical section: a zeroed local
   * buffer of BUFFER_SIZE bytes and the CONNECTED record.
   */
  method ConnectStep(log: Logger, pid: int, tid: int) returns (localBuffer: array<byte>)
    modifies log
    ensures fresh(localBuffer)
    ensures localBuffer.Length == BUFFER_SIZE && localBuffer[..] == Zeros(BUFFER_SIZE)
    ensures log.records == old(log.records) + [Record(Connected, pid, tid, Dash, Dash)]
  {
    DashEcho();
    localBuffer := new byte[BUFFER_SIZE];
    Memset(localBuffer, NUL);
    log.Write(Connected, pid, tid, Dash, Dash);
  }

  /**
   * The rest of handle_client: take the semaphore, read at most
   * BUFFER_SIZE - 1 bytes into the local buffer, and either log ERROR_READ
   * or send back the reversal of the request (the received bytes up to their
   * first NUL), logging RECEIVED, PROCESSED and RESPONDED; return the
   * semaphore on both paths and close the connection.
   */
  method GuardedStep(localBuffer: array<byte>, client: Socket, sem: Semaphore, log: Logger, pid: int, tid: int)
    requires localBuffer.Length == BUFFER_SIZE && localBuffer[..] == Zeros(BUFFER_SIZE)
    requires sem.count > 0
    modifies localBuffer, client, sem, log
    ensures sem.count == old(sem.count)
    ensures sem.history == old(sem.history) + [Take, Give]
    ensures client.closed
    ensures client.incoming == old(client.incoming)[|old(client.Delivered(BUFFER_SIZE - 1))|..]
    ensures client.failed == old(client.failed)
    ensures old(client.ReadResult(BUFFER_SIZE - 1)) <= 0 ==>
      client.sent == old(client.sent) &&
      log.records == old(log.records) + [Record(ErrorRead, pid, tid, Dash, Dash)]
    ensures old(client.ReadResult(BUFFER_SIZE - 1)) > 0 ==>
      var request := CStr(old(client.Delivered(BUFFER_SIZE - 1)));
      var response := Reverse(request);
      |response| <= BUFFER_SIZE - 1 &&
      client.sent == old(client.sent) + response &&
      log.records == old(log.records) + ResponseLog(pid, tid, request, response)
  {
    ghost var delivered := client.Delivered(BUFFER_SIZE - 1);
    DashEcho();

    sem.Wait();

    var bytesRead := client.Read(localBuffer, BUFFER_SIZE - 1);
    if bytesRead <= 0 {
      log.Write(ErrorRead, pid, tid, Dash, Dash);
      sem.Post();
      client.Close();
      return;
    }
    localBuffer[bytesRead] := NUL;
    assert localBuffer[..] == delivered + Zeros(BUFFER_SIZE - bytesRead);
    CStrOfTerminatedData(delivered, Zeros(BUFFER_SIZE - bytesRead));

    Respond(localBuffer, client, log, pid, tid);

    sem.Post();
    client.Close();
  }

  /**
   * handle_client run from start to end with no other worker in between:
   * the semaphore count is restored and the connection closed; a failed read
   * logs CONNECTED, ERROR_READ and sends nothing; otherwise the client is
   * sent the reversal of its request and the log gains CONNECTED, RECEIVED,
   * PROCESSED, RESPONDED.
   */
  method HandleClient(client: Socket, sem: Semaphore, log: Logger, pid: int, tid: int)
    requires sem.count > 0
    modifies client, sem, log
    ensures sem.count == old(sem.count)
    ensures sem.history == old(sem.history) + [Take, Give]
    ensures client.closed
    ensures client.incoming == old(client.incoming)[|old(client.Delivered(BUFFER_SIZE - 1))|..]
    ensures client.failed == old(client.failed)
    ensures old(client.ReadResult(BUFFER_SIZE - 1)) <= 0 ==>
      client.sent == old(client.sent) &&
      log.records == old(log.records) + [Record(Connected, pid, tid, Dash, Dash),
                                         Record(ErrorRead, pid, tid, Dash, Dash)]
    ensures old(client.ReadResult(BUFFER_SIZE - 1)) > 0 ==>
      var request := CStr(old(client.Delivered(BUFFER_SIZE - 1)));
      var response := Reverse(request);
      |response| <= BUFFER_SIZE - 1 &&
      client.sent == old(client.sent) + response &&
      log.records == old(log.records) + [Record(Connected, pid, tid, Dash, Dash)]
                                      + ResponseLog(pid, tid, request, response)
  {
    var localBuffer := ConnectStep(log, pid, tid);
    GuardedStep(localBuffer, client, sem, log, pid, tid);
  }

  /**
   * A client whose peer closes without sending anything, then a client that
   * sends "apple".  The first worker returns the semaphore on its error
   * path, so the second can take it: it is sent "elppa", the semaphore is
   * back at its initial count, and the log reads CONNECTED, ERROR_READ for
   * the first worker, then CONNECTED, RECEIVED, PROCESSED, RESPONDED for the
   * second.
   */
  method FailedReadThenApple() returns (reply: seq<byte>, permits: nat, records: seq<Record>)
    ensures reply == Elppa
    ensures permits == INITIAL_PERMITS
    ensures records == [Record(Connected, 1, 10, Dash, Dash), Record(ErrorRead, 1, 10, Dash, Dash),
                        Record(Connected, 1, 11, Dash, Dash)]
                       + ResponseLog(1, 11, Apple, Elppa)
  {
    var sem := new Semaphore(INITIAL_PERMITS);
    var log := new Logger();
    var silent := new Socket([], false);
    var apple := new Socket(Apple, false);
    HandleClient(silent, sem, log, 1, 10);
    assert apple.Delivered(BUFFER_SIZE - 1) == Apple[..|Apple|] == Apple;
    HandleClient(apple, sem, log, 1, 11);
    StrLenUnique(Apple, |Apple|);
    AppleReversed();
    reply, permits, records := apple.sent, sem.count, log.records;
  }

  /**
   * Two clients, "apple" and "banana", whose workers both log CONNECTED
   * before either enters the critical section.  The first worker returns the
   * semaphore, so the second can take it, and each client is sent the
   * reversal of its own request.
   */
  method ConnectedTogether() returns (replyA: seq<byte>, replyB: seq<byte>, records: seq<Record>)
    ensures replyA == Reverse(Apple) && replyB == Reverse(Banana)
    ensures records == [Record(Connected, 1, 10, Dash, Dash), Record(Connected, 1, 11, Dash, Dash)]
                       + ResponseLog(1, 10, Apple, Reverse(Apple))
                       + ResponseLog(1, 11, Banana, Reverse(Banana))
  {
    var sem := new Semaphore(INITIAL_PERMITS);
    var log := new Logger();
    var a := new Socket(Apple, false);
    var b := new Socket(Banana, false);
    var bufferA := ConnectStep(log, 1, 10);
    var bufferB := ConnectStep(log, 1, 11);
    SamplesAreCStrings();
    assert Apple[..|Apple|] == Apple && Banana[..|Banana|] == Banana;
    assert CStr(a.Delivered(BUFFER_SIZE - 1)) == Apple;
    assert CStr(b.Delivered(BUFFER_SIZE - 1)) == Banana;
    GuardedStep(bufferA, a, sem, log, 1, 10);
    GuardedStep(bufferB, b, sem, log, 1, 11);
    replyA, replyB, records := a.sent, b.sent, log.records;
  }
}
