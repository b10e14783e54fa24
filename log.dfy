/**
 * The servers' log: `write_log` appends one line per lifecycle step of a
 * worker, echoing the request and the response as C strings.  Here the log
 * file is the sequence of records appended so far.
 */
module Log {
  import opened LibC

  /** The lifecycle tags the server side writes. */
  datatype State = Connected | ErrorRead | Received | Processed | Responded

  /** One log line: its tag, the worker's process and thread ids, and the two echoed strings. */
  datatype Record = Record(state: State, pid: int, tid: int, request: seq<byte>, response: seq<byte>)

  /** The placeholder "-" logged where there is no request or response. */
  const Dash: seq<byte> := [45]

  /** "-" holds no NUL, so it is echoed as it is. */
  lemma DashEcho()
    ensures CStr(Dash) == Dash
  {
  }

  /** The shared log destination. */
  class Logger {
    var records: seq<Record>

    /** A log truncated at server start. */
    constructor ()
      ensures records == []
    {
      records := [];
    }

    /**
     * write_log(state, pid, tid, req, res): appends exactly one record that
     * echoes `req` and `res` as `%s` prints them, up to their first NUL.
     */
    method Write(state: State, pid: int, tid: int, req: seq<byte>, res: seq<byte>)
      modifies this
      ensures records == old(records) + [Record(state, pid, tid, CStr(req), CStr(res))]
    {
      records := records + [Record(state, pid, tid, CStr(req), CStr(res))];
    }
  }
}
