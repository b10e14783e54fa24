/**
 * One accepted client connection, as the server's handler sees it: the bytes
 * the peer sent (the whole message arrives in one segment), whether the next
 * read fails, the bytes written back, and whether the server closed it.
 */
module Net {
  import opened LibC

  class Socket {
    /** Bytes the peer has sent that no read has consumed yet. */
    var incoming: seq<byte>
    /** The next read reports an error. */
    var failed: bool
    /** Bytes the server has written back on this connection. */
    var sent: seq<byte>
    var closed: bool

    /** A freshly accepted connection whose peer sent `message` (or whose read fails). */
    constructor (message: seq<byte>, readFails: bool)
      ensures incoming == message && failed == readFails
      ensures sent == [] && !closed
    {
      incoming, failed := message, readFails;
      sent, closed := [], false;
    }

    /**
     * What read(fd, buf, count) returns: -1 on an error, 0 when the peer sent
     * nothing (closed its end), otherwise the number of bytes copied, which
     * never exceeds `count`.
     */
    function ReadResult(count: nat): (n: int)
      reads this
      ensures n <= count
      ensures n > 0 <==> !failed && incoming != [] && count > 0
      ensures n > 0 ==> n <= |incoming|
      ensures 0 < n < count ==> n == |incoming|
    {
      if failed then -1 else if |incoming| < count then |incoming| else count
    }

    /** The bytes a read of at most `count` bytes delivers (none on a failed read). */
    function Delivered(count: nat): (d: seq<byte>)
      reads this
      ensures d <= incoming
      ensures |d| <= count
      ensures ReadResult(count) > 0 ==> |d| == ReadResult(count)
      ensures ReadResult(count) <= 0 ==> d == []
    {
      var n := ReadResult(count);
      if n <= 0 then [] else incoming[..n]
    }

    /**
     * read(fd, buf, count): copies the delivered bytes to the front of `buf`
     * and consumes them; the rest of `buf` is untouched.
     */
    method Read(buf: array<byte>, count: nat) returns (n: int)
      requires count <= buf.Length
      modifies this, buf
      ensures n == old(ReadResult(count))
      ensures n <= 0 ==> buf[..] == old(buf[..]) && incoming == old(incoming)
      ensures n > 0 ==> buf[..n] == old(Delivered(count)) && buf[n..] == old(buf[n..])
      ensures n > 0 ==> incoming == old(incoming[n..])
      ensures failed == old(failed) && sent == old(sent) && closed == old(closed)
    {
      n := ReadResult(count);
      if n > 0 {
        var d := incoming[..n];
        forall i | 0 <= i < n {
          buf[i] := d[i];
        }
        incoming := incoming[n..];
      }
    }

    /** write(fd, buf, len): the first `len` bytes of `buf` go out on the connection. */
    method Write(buf: array<byte>, len: nat)
      requires len <= buf.Length
      modifies this
      ensures sent == old(sent) + buf[..len]
      ensures incoming == old(incoming) && failed == old(failed) && closed == old(closed)
    {
      sent := sent + buf[..len];
    }

    /** close(fd). */
    method Close()
      modifies this
      ensures closed
      ensures incoming == old(incoming) && failed == old(failed) && sent == old(sent)
    {
      closed := true;
    }
  }
}
