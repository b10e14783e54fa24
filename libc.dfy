/**
 * The C library facilities both servers rely on, over byte buffers:
 * NUL-terminated strings (strlen, the "%s" view of a buffer), memset and
 * strncpy.  A C `char` buffer is a sequence (or an array) of bytes.
 */
module LibC {

  /** A C `char`: one byte. */
  newtype byte = b: int | 0 <= b < 256

  /** The string terminator '\0'. */
  const NUL: byte := 0

  /** `n` zero bytes. */
  function Zeros(n: nat): (r: seq<byte>)
    ensures |r| == n
    ensures forall i :: 0 <= i < n ==> r[i] == NUL
  {
    seq(n, _ => NUL)
  }

  /**
   * strlen: the number of bytes before the first NUL.  On a sequence with no
   * NUL the result is its length: the sequence then stands for a string whose
   * terminator lies just past it.
   */
  function StrLen(s: seq<byte>): (n: nat)
    ensures n <= |s|
    ensures forall i :: 0 <= i < n ==> s[i] != NUL
    ensures n < |s| ==> s[n] == NUL
  {
    if s == [] || s[0] == NUL then 0 else 1 + StrLen(s[1..])
  }

  /** The buffer holds a NUL, so it is a valid C string. */
  predicate Terminated(s: seq<byte>)
  {
    StrLen(s) < |s|
  }

  /** A NUL at index k bounds strlen by k, so the buffer is a C string. */
  lemma TerminatedByNulAt(s: seq<byte>, k: nat)
    requires k < |s| && s[k] == NUL
    ensures StrLen(s) <= k && Terminated(s)
  {
  }

  /** The string a C function sees in the buffer (what `%s` prints): its longest NUL-free prefix. */
  function CStr(s: seq<byte>): (r: seq<byte>)
    ensures r <= s
    ensures NUL !in r
    ensures |r| < |s| ==> s[|r|] == NUL
  {
    s[..StrLen(s)]
  }

  /** The first NUL is the only place strlen can stop. */
  lemma StrLenUnique(s: seq<byte>, k: nat)
    requires k <= |s|
    requires forall i :: 0 <= i < k ==> s[i] != NUL
    requires k < |s| ==> s[k] == NUL
    ensures StrLen(s) == k
  {
  }

  /**
   * Writing a terminator right after some data and anything behind it leaves
   * the C string of the data unchanged: it stops at the data's own first NUL,
   * or at the terminator.
   */
  lemma {:induction false} CStrOfTerminatedData(data: seq<byte>, tail: seq<byte>)
    requires tail != [] && tail[0] == NUL
    ensures StrLen(data + tail) == StrLen(data) < |data + tail|
    ensures CStr(data + tail) == CStr(data)
  {
    var s := data + tail;
    var k := StrLen(data);
    forall i | 0 <= i < k
      ensures s[i] != NUL
    {
      assert s[i] == data[i];
    }
    if k < |data| {
      assert s[k] == data[k];
    } else {
      assert s[k] == tail[0];
    }
    StrLenUnique(s, k);
  }

  /** memset(a, c, a.Length): every byte of the buffer becomes `c`. */
  method Memset(a: array<byte>, c: byte)
    modifies a
    ensures forall i :: 0 <= i < a.Length ==> a[i] == c
  {
    forall i | 0 <= i < a.Length {
      a[i] := c;
    }
  }

  /**
   * The first `n` bytes strncpy(dst, src, n) leaves in `dst`: the C string of
   * `src[..n]`, then NUL padding up to `n` bytes.
   */
  function StrNCpyResult(src: seq<byte>, n: nat): (r: seq<byte>)
    requires n <= |src|
    ensures |r| == n
    ensures CStr(r) == CStr(src[..n])
    ensures forall i :: StrLen(src[..n]) <= i < n ==> r[i] == NUL
    ensures StrLen(src[..n]) < n ==> Terminated(r)
  {
    var s := CStr(src[..n]);
    CStrOfTerminatedDataOrFull(s, Zeros(n - |s|));
    s + Zeros(n - |s|)
  }

  /** Like `CStrOfTerminatedData`, but the padding may be empty when the data is NUL-free. */
  lemma {:induction false} CStrOfTerminatedDataOrFull(data: seq<byte>, pad: seq<byte>)
    requires NUL !in data
    requires forall i :: 0 <= i < |pad| ==> pad[i] == NUL
    ensures CStr(data + pad) == data
    ensures pad != [] ==> Terminated(data + pad)
  {
    if pad == [] {
      assert data + pad == data;
      StrLenUnique(data, |data|);
    } else {
      CStrOfTerminatedData(data, pad);
      StrLenUnique(data, |data|);
    }
  }

  /** strncpy(dst, src, n) on two distinct buffers: `dst[..n]` becomes `StrNCpyResult`, the rest stays. */
  method StrNCpy(dst: array<byte>, src: array<byte>, n: nat)
    requires n <= dst.Length && n <= src.Length
    requires dst != src
    modifies dst
    ensures dst[..n] == StrNCpyResult(src[..], n)
    ensures dst[n..] == old(dst[n..])
  {
    ghost var copied := src[..n];
    var k := StrLen(src[..n]);
    forall i | 0 <= i < n {
      dst[i] := if i < k then src[i] else NUL;
    }
    assert src[..][..n] == copied;
    ghost var expected := StrNCpyResult(src[..], n);
    assert CStr(copied) == copied[..k];
    assert CStr(expected) == copied[..k];
    assert StrLen(expected) == k;
    forall i | 0 <= i < n
      ensures dst[i] == expected[i]
    {
      if i < k {
        assert expected[i] == CStr(expected)[i];
        assert src[i] == copied[i];
      }
    }
    assert dst[..n] == expected;
    assert forall i :: n <= i < dst.Length ==> dst[i] == old(dst[i]);
    assert dst[n..] == old(dst[n..]);
  }
}
