/** Byte streams: a blocking source that may deliver its bytes in chunks of any size, and a sink. */
module Streams {
  import opened Bytes

  /** What `InputStream` (Kotlin) and `io::Read` (Rust) give: `rest` is all that the peer will still send. */
  class ByteSource {
    var rest: bytes

    constructor (content: bytes)
      ensures rest == content
    {
      rest := content;
    }

    /** One `read(buf, off, len)` call: at least one byte unless at end of stream, and no fixed chunk size. */
    method Read(buf: array<byte>, off: nat, len: nat) returns (n: int)
      requires off + len <= buf.Length
      modifies this`rest, buf
      ensures len > 0 && old(rest) == [] ==> n == -1
      ensures len > 0 && old(rest) != [] ==> 0 < n
      ensures len == 0 ==> n == 0
      ensures n <= len && n <= |old(rest)|
      ensures n < 0 ==> rest == old(rest) && buf[..] == old(buf[..])
      ensures n >= 0 ==> rest == old(rest)[n..]
      ensures n >= 0 ==> buf[..] == old(buf[..off]) + old(rest)[..n] + old(buf[off + n..])
    {
      if len == 0 {
        return 0;
      }
      if rest == [] {
        return -1;
      }
      n :| 0 < n <= len && n <= |rest|;
      forall i | 0 <= i < n {
        buf[off + i] := rest[i];
      }
      rest := rest[n..];
    }
  }

  /** `OutputStream`, `io::Write` or a growing `Vec<u8>`: everything written so far. */
  class ByteSink {
    var data: bytes

    constructor ()
      ensures data == []
    {
      data := [];
    }

    method Write(b: bytes)
      modifies this
      ensures data == old(data) + b
    {
      data := data + b;
    }
  }

  /**
   * Fill `buf`, or report that the stream ended first. The outcome does not depend on the chunks in which
   * the bytes arrive: it is the next `buf.Length` bytes of the stream, whenever there are that many.
   */
  method ReadFully(input: ByteSource, buf: array<byte>) returns (ok: bool)
    modifies input, buf
    ensures ok <==> |old(input.rest)| >= buf.Length
    ensures ok ==> buf[..] == old(input.rest)[..buf.Length]
    ensures ok ==> input.rest == old(input.rest)[buf.Length..]
    ensures !ok ==> input.rest == []
  {
    var off := 0;
    while off < buf.Length
      invariant 0 <= off <= buf.Length
      invariant off <= |old(input.rest)|
      invariant input.rest == old(input.rest)[off..]
      invariant buf[..off] == old(input.rest)[..off]
    {
      ghost var before := buf[..];
      var n := input.Read(buf, off, buf.Length - off);
      if n < 0 {
        return false;
      }
      assert buf[..off + n] == before[..off] + old(input.rest)[off..off + n];
      off := off + n;
    }
    return true;
  }
}
