# Reversing echo servers: guarded and racy handlers

This project models the per-connection handler of two small TCP servers.
Each server reads one request from a client, reverses it, writes the
reversal back and closes the connection. It logs each lifecycle step.

- `server_fixed.c`, the guarded server: each worker reads into its own
  1024-byte buffer. It holds a semaphore (initial count 1) from the read to
  the response and returns it on both exit paths.
- `server_race.c`, the racy server: every worker reads into one process-wide
  `shared_buffer` and later copies its request back out of it. Nothing stops
  another worker from clearing and overwriting that buffer in between.

Modules, one per file:

- `LibC` (`libc.dfy`): bytes, `strlen`, the C string a buffer holds (what
  `%s` prints), `memset` and `strncpy`.
- `Transform` (`transform.dfy`): `reverse_string`. It is identical in both
  servers and is modelled once. `ReverseString` swaps bytes in place in an
  array. It is proved against `ReverseCString`, a function on the buffer's
  contents. `Reverse` is plain sequence reversal.
- `Log` (`log.dfy`): `write_log` as appending a record to a sequence.
- `Sync` (`sync.dfy`): the named semaphore as a counter, with a ghost history
  of its waits and posts.
- `Net` (`net.dfy`): the accepted connection. It holds the bytes the peer
  sent, whether the next read fails, the bytes written back and whether the
  connection was closed.
- `Worker` (`worker.dfy`): the step both handlers share once a request sits
  NUL-terminated in a buffer. It logs RECEIVED, copies with `strncpy`,
  reverses, logs PROCESSED, writes and logs RESPONDED.
- `FixedServer` (`fixed_server.dfy`): the guarded `handle_client`. It is
  split where the semaphore is taken. The connect step clears the local
  buffer and logs CONNECTED. The guarded step runs from `sem_wait` to
  `close`. Other workers' connect steps can be placed between the two.
- `RaceServer` (`race_server.dfy`): `shared_buffer` as a field of a
  `SharedState` object. The handler is split into a receive step (clear,
  read, terminate) and a respond step (copy, reverse, respond). Another
  worker's steps can be placed between them explicitly, without threads.

Three points where the model follows the code's exact behaviour:

- The transform reverses the request only up to its first NUL byte, because
  it is `strlen`-bounded. It does not reverse every byte read.
- A request is at most 1023 bytes, not 1024.
- On a failed read the racy server writes no ERROR_READ record. It only
  closes the connection (server_race.c:60-63).

## Model

| member | source | states |
|---|---|---|
| `LibC.StrLen` | server_fixed.c:47 | strlen: no NUL before the result; at the result, the terminator, when the buffer holds one |
| `LibC.CStr` | server_fixed.c:39-40 | the string `%s` echoes is a prefix of the buffer with no NUL in it, ending where the buffer's first NUL is |
| `LibC.CStrOfTerminatedData` | server_fixed.c:75 | writing the terminator right after the bytes read leaves a NUL-terminated buffer whose C string is that of the bytes read |
| `LibC.Memset` | server_race.c:56 | every byte of the buffer is set to the given value (all 1024 bytes are zeroed) |
| `LibC.StrNCpyResult` | server_fixed.c:83 | strncpy's result has n bytes, the same C string as the source's first n bytes, and NUL padding after it; it is terminated when the source is |
| `LibC.StrNCpy` | server_race.c:72 | the copy's first n bytes become `StrNCpyResult` of the source; the rest of the destination is unchanged |
| `Transform.Reverse` | server_fixed.c:48-52 | reversal keeps the length |
| `Transform.ReverseAt` | server_fixed.c:48-52 | byte i of the reversal is byte n-1-i of the input |
| `Transform.ReverseInvolution` | server_fixed.c:46-53 | reversing twice gives back the input |
| `Transform.ReverseCStringAt` | server_fixed.c:46-53 | with n = strlen: after reverse_string, byte i < n is the old byte n-1-i; the NUL at n and every byte after it are unchanged; the length is unchanged |
| `Transform.ReverseCStringKeepsLength` | server_fixed.c:47-52 | reverse_string preserves strlen, and the new C string is the reversal of the old |
| `Transform.ReverseCStringInvolution` | server_fixed.c:46-53 | applying reverse_string twice restores the buffer |
| `Transform.ReverseCStringEmpty` | server_fixed.c:47-48 | a buffer holding the empty string is left unchanged |
| `Transform.ReverseString` | server_race.c:41-48 | the in-place swap loop leaves exactly `ReverseCString` of the old contents; it needs a terminated buffer, as strlen does |
| `Log.Logger.constructor` | server_fixed.c:114-123 | the log starts empty at server start |
| `Log.Logger.Write` | server_fixed.c:29-44 | write_log appends exactly one record with the state, pid, tid and the C strings of request and response |
| `Sync.Semaphore.constructor` | server_fixed.c:107 | the semaphore starts at the given count, with no wait or post recorded |
| `Sync.Semaphore.Wait` | server_fixed.c:66 | sem_wait takes one permit and records a take; a caller may wait only while one is free |
| `Sync.Semaphore.Post` | server_fixed.c:71 | sem_post returns one permit and records a give |
| `Net.Socket.constructor` | server_fixed.c:56 | a fresh connection: nothing sent back yet, not closed |
| `Net.Socket.ReadResult` | server_fixed.c:68 | read returns at most count bytes; it returns a positive count exactly when no error occurred, the peer sent something and count > 0; it returns all pending bytes when fewer than count are pending |
| `Net.Socket.Delivered` | server_fixed.c:68 | the bytes a read delivers are a prefix of what the peer sent, at most count long; none on a failed read |
| `Net.Socket.Read` | server_race.c:59 | read copies the delivered bytes to the front of the buffer, consumes them, and leaves the rest of the buffer unchanged |
| `Net.Socket.Write` | server_fixed.c:87 | write appends the first len bytes of the buffer to what the client receives |
| `Net.Socket.Close` | server_fixed.c:93 | close marks the connection closed and changes nothing else |
| `Worker.ReversedCopy` | server_fixed.c:82-84 | the response buffer is terminated and its C string is the reversal of the request buffer's C string |
| `Worker.Respond` | server_fixed.c:80-88 | the client is sent the reversal of the buffer's C string, at most 1023 bytes; the log gains RECEIVED (response "-"), PROCESSED and RESPONDED, all carrying the request, the last two carrying the response |
| `Worker.AppleReversed` | client.c:13 | the response to "apple" is "elppa" |
| `FixedServer.ConnectStep` | server_fixed.c:61-63 | a fresh local buffer of 1024 zero bytes, and exactly one CONNECTED record appended |
| `FixedServer.GuardedStep` | server_fixed.c:66-93 | on both exit paths the semaphore is taken exactly once and then returned exactly once, so its count is the same afterwards; and the connection is closed. On a non-positive read nothing is sent and the log gains exactly ERROR_READ. Otherwise the client is sent the reversal of the bytes read up to their first NUL (at most 1023 bytes), and the log gains RECEIVED, PROCESSED, RESPONDED in that order |
| `FixedServer.HandleClient` | server_fixed.c:55-95 | run with no other worker in between: on both exit paths the semaphore is taken exactly once and then returned exactly once, so its count is the same afterwards; and the connection is closed. On a non-positive read nothing is sent and the log gains exactly CONNECTED, ERROR_READ. Otherwise the client is sent the reversal of the bytes read up to their first NUL (at most 1023 bytes), and the log gains CONNECTED, RECEIVED, PROCESSED, RESPONDED in that order |
| `FixedServer.ConnectedTogether` | server_fixed.c:61-91 | when two workers both log CONNECTED before either takes the semaphore, the first returns it so the second can take it, each client is sent the reversal of its own request, and the log holds both CONNECTED records and then each worker's three records |
| `FixedServer.FailedReadThenApple` | server_fixed.c:69-74 | after a client that sends nothing, the semaphore is free again: the next client, sending "apple", gets "elppa", the count is back to 1, and the log reads CONNECTED, ERROR_READ, then the four success records |
| `RaceServer.SharedState.constructor` | server_race.c:16 | the shared buffer is 1024 zero bytes and its last byte is NUL |
| `RaceServer.ReceiveStep` | server_race.c:56-64 | the shared buffer ends up holding exactly the bytes this read delivered, then zeros (all zeros on a failed read), and its last byte stays NUL; the log gains only CONNECTED; a failed read closes the connection with nothing sent |
| `RaceServer.RespondStep` | server_race.c:69-79 | the client is sent the reversal of whatever the shared buffer holds at the copy, up to its first NUL; the log gains RECEIVED, PROCESSED, RESPONDED with that request and response |
| `RaceServer.HandleClient` | server_race.c:50-81 | with no other worker between the two steps: a failed read sends nothing and logs only CONNECTED, with no ERROR_READ; otherwise the client gets the reversal of its own request and the log gains the four success records in order. Either way the shared buffer is left holding the bytes this read delivered, then zeros |
| `RaceServer.OverlappingReads` | server_race.c:59-76 | when a second worker's read ("banana") lands between the first worker's read ("apple") and its copy, both clients are sent "ananab", which is not the reversal of "apple" |
| `RaceServer.WholeHandlerBeforeCopy` | server_race.c:56-76 | when a whole handler for "apple" runs between another worker's read of "banana" and its copy, both clients are sent "elppa", which is not the reversal of "banana" |
| `RaceServer.ClearedBeforeCopy` | server_race.c:56-73 | when a worker whose peer sends nothing clears the shared buffer between another worker's read and copy, that other client is sent an empty response |

## Left out

- `main` of both servers is not modelled: socket, bind, listen, the accept loop, SO_REUSEADDR, thread creation and detach, semaphore creation and unlink. These are operating-system and network set-up. The semaphore's initial count of 1 is kept as `FixedServer.INITIAL_PERMITS`.
- Threads, scheduling and the blocking of `sem_wait` are not modelled. Waiting needs a free permit (`requires count > 0`). Interleaving is modelled only at explicit points: between the guarded server's connect step and its guarded step, and between the racy server's receive and respond steps.
- FixedServer.HandleClient: its log postcondition, with CONNECTED directly followed by that worker's ERROR_READ or RECEIVED, holds only when no other worker runs in between. The semaphore guards only server_fixed.c:66-91, so another worker's CONNECTED record can fall after this one. `FixedServer.GuardedStep` states the guarded part alone, and `FixedServer.ConnectedTogether` shows such an interleaving.
- RaceServer.RespondStep: another worker writing between the RECEIVED record, the copy and the PROCESSED record is not modelled. Only the point between receive and respond is split out.
- `usleep` delays are not modelled. They affect timing only.
- `get_timestamp`, the log line's text format, the start-up banner, `fflush` and `log_mutex` are not modelled. These are clock and file I/O. Each `write_log` call is one atomic append of a record.
- Log.Logger.Write: a failure to open the log file drops the record in the source; the model always appends it.
- Net.Socket.Read: a read that returns fewer bytes than are pending and below the limit is not modelled. The peer's message arrives in one segment, so a read returns min(count, pending) bytes.
- Net.Socket.Write: a short or failed write is not modelled. The source ignores the result of `write`.
- The process and thread ids come from `getpid` and `pthread_self`/`gettid`. In the model they are parameters of the handler.
- `client.c` and `run_clients.c` are not part of this model. They are a driver client and a process-spawning harness. Only the sample words "apple" and "banana" from `client.c:13` are used.
