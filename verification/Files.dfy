/** A file the program holds open. */
module Files {
  import opened Bytes

  class File {
    /** No operation that can be done ever fails. */
    const reliable: bool
    var data: seq<byte>

    constructor (content: seq<byte>, reliable: bool)
      ensures data == content && this.reliable == reliable
    {
      this.reliable, data := reliable, content;
    }

    /** An operation without effect on the content: opening, asking for the
        size, syncing. */
    method Touch() returns (ok: bool)
      ensures reliable ==> ok
    {
      ok := *;
      if reliable { ok := true; }
    }

    /** Writes buf at off. An offset that is negative or a range that leaves
        int64 is refused; otherwise the write may still fail at any point, and
        what was written before stays written. */
    method WriteAt(off: int, buf: seq<byte>) returns (ok: bool)
      modifies this
      ensures ok ==> 0 <= off && off + |buf| <= MAX_INT64 && data == WriteBytes(old(data), off, buf)
      ensures reliable && 0 <= off && off + |buf| <= MAX_INT64 ==> ok
      ensures !ok ==>
                || data == old(data)
                || (0 <= off && exists n: nat :: n <= |buf| && data == WriteBytes(old(data), off, buf[..n]))
    {
      if off < 0 || off + |buf| > MAX_INT64 { return false; }
      var n: nat :| n <= |buf|;
      ok := *;
      if reliable { ok := true; }
      if ok { n := |buf|; assert buf[..n] == buf; }
      data := WriteBytes(data, off, buf[..n]);
    }

    /** Reads n bytes at off into buf[at..at+n]; fails on a range that is not in
        the file. */
    method ReadAt(buf: array<byte>, at: nat, off: int, n: nat) returns (ok: bool)
      requires at + n <= buf.Length
      modifies buf
      ensures ok ==> 0 <= off && off + n <= |data|
      ensures reliable && 0 <= off && off + n <= |data| ==> ok
      ensures ok ==> buf[..] == Splice(old(buf[..]), at, Slice(data, off, n))
      ensures !ok ==> buf[..] == old(buf[..])
    {
      if off < 0 || off + n > |data| { return false; }
      ok := *;
      if reliable { ok := true; }
      if ok {
        forall k | at <= k < at + n { buf[k] := data[off + (k - at)]; }
        ghost var want := Splice(old(buf[..]), at, Slice(data, off, n));
        forall k | 0 <= k < buf.Length ensures buf[k] == want[k] {
        }
      }
    }

    /** Sets the length, cutting or extending with zeros; a negative length is
        refused. */
    method Truncate(n: int) returns (ok: bool)
      modifies this
      ensures ok ==> 0 <= n && data == Resized(old(data), n)
      ensures reliable && 0 <= n ==> ok
      ensures !ok ==> data == old(data)
    {
      if n < 0 { return false; }
      ok := *;
      if reliable { ok := true; }
      if ok { data := Resized(data, n); }
    }
  }

  function Resized(d: seq<byte>, n: nat): (r: seq<byte>)
    ensures |r| == n && forall k: nat | k < n :: r[k] == ByteAt(d, k)
  {
    if n <= |d| then d[..n] else d + Zeros(n - |d|)
  }
}
