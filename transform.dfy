/**
 * The request-to-response transform of both servers: `reverse_string`
 * reverses, in place, the C string held in a buffer.  `Reverse` is the
 * reversal of a byte sequence; `ReverseCString` is what the in-place swap
 * loop leaves in a whole buffer.
 */
module Transform {
  import opened LibC

  /** The bytes of `s` in the opposite order. */
  function Reverse(s: seq<byte>): (r: seq<byte>)
    ensures |r| == |s|
  {
    if s == [] then [] else Reverse(s[1..]) + [s[0]]
  }

  /** The first byte of the reversal is the last of the input, and so on. */
  lemma {:induction false} ReverseAt(s: seq<byte>, i: nat)
    requires i < |s|
    ensures Reverse(s)[i] == s[|s| - 1 - i]
  {
    if i < |s| - 1 {
      ReverseAt(s[1..], i);
    }
  }

  /** Reversal is its own inverse. */
  lemma {:induction false} ReverseInvolution(s: seq<byte>)
    ensures Reverse(Reverse(s)) == s
  {
    forall i | 0 <= i < |s|
      ensures Reverse(Reverse(s))[i] == s[i]
    {
      ReverseAt(Reverse(s), i);
      ReverseAt(s, |s| - 1 - i);
    }
  }

  /** Reversal neither drops nor introduces a terminator. */
  lemma {:induction false} ReverseKeepsBytes(s: seq<byte>, b: byte)
    ensures b in Reverse(s) <==> b in s
  {
    if b in s {
      var j :| 0 <= j < |s| && s[j] == b;
      ReverseAt(s, |s| - 1 - j);
    }
    if b in Reverse(s) {
      var j :| 0 <= j < |s| && Reverse(s)[j] == b;
      ReverseAt(s, j);
    }
  }

  /**
   * What `reverse_string` leaves in a buffer: the C string reversed, the
   * terminator and every byte after it as they were.
   */
  function ReverseCString(s: seq<byte>): (r: seq<byte>)
  {
    Reverse(CStr(s)) + s[StrLen(s)..]
  }

  /**
   * With n = strlen(s): byte i < n of the result is byte n-1-i of the input,
   * and bytes from the terminator on are unchanged; the length is unchanged.
   */
  lemma {:induction false} ReverseCStringAt(s: seq<byte>, i: nat)
    requires i < |s|
    ensures |ReverseCString(s)| == |s|
    ensures i < StrLen(s) ==> ReverseCString(s)[i] == s[StrLen(s) - 1 - i]
    ensures StrLen(s) <= i ==> ReverseCString(s)[i] == s[i]
  {
    var n := StrLen(s);
    if i < n {
      ReverseAt(CStr(s), i);
    }
  }

  /** strlen is the same before and after, and the new C string is the reversal of the old. */
  lemma {:induction false} ReverseCStringKeepsLength(s: seq<byte>)
    ensures StrLen(ReverseCString(s)) == StrLen(s)
    ensures CStr(ReverseCString(s)) == Reverse(CStr(s))
  {
    var r := ReverseCString(s);
    var n := StrLen(s);
    ReverseKeepsBytes(CStr(s), NUL);
    forall i | 0 <= i < n
      ensures r[i] != NUL
    {
      assert r[i] == Reverse(CStr(s))[i];
    }
    StrLenUnique(r, n);
  }

  /** Reversing a buffer's string twice restores the buffer. */
  lemma {:induction false} ReverseCStringInvolution(s: seq<byte>)
    ensures ReverseCString(ReverseCString(s)) == s
  {
    var r := ReverseCString(s);
    ReverseCStringKeepsLength(s);
    ReverseInvolution(CStr(s));
    assert r[StrLen(s)..] == s[StrLen(s)..];
    assert s == CStr(s) + s[StrLen(s)..];
  }

  /** The empty string (a buffer that starts with NUL) is left as it is. */
  lemma ReverseCStringEmpty(s: seq<byte>)
    requires s != [] && s[0] == NUL
    ensures ReverseCString(s) == s
  {
  }

  /**
   * reverse_string(str): swaps str[i] and str[n-1-i] for i < n/2, where
   * n = strlen(str).  The buffer must hold a terminator, as strlen demands.
   */
  method ReverseString(str: array<byte>)
    requires Terminated(str[..])
    modifies str
    ensures str[..] == ReverseCString(old(str[..]))
  {
    ghost var s := str[..];
    var n := StrLen(str[..]);
    for i := 0 to n / 2
      invariant forall k :: 0 <= k < i ==> str[k] == s[n - 1 - k]
      invariant forall k :: n - i <= k < n ==> str[k] == s[n - 1 - k]
      invariant forall k :: i <= k < n - i ==> str[k] == s[k]
      invariant forall k :: n <= k < str.Length ==> str[k] == s[k]
    {
      var tmp := str[i];
      str[i] := str[n - i - 1];
      str[n - i - 1] := tmp;
    }
    forall k | 0 <= k < str.Length
      ensures str[k] == ReverseCString(s)[k]
    {
      ReverseCStringAt(s, k);
    }
  }
}
