/** The adapter between a network stream and the media engine's four
    callbacks: open, read, seek and close. */
module StreamContainers {

  /** The opened network stream: the bytes it has received and not yet
      handed out, and how many times it was closed. How many bytes one read
      hands out is up to the stream (live streams arrive in chunks), but
      never more than asked for. */
  class LiveStream {
    var pending: seq<bv8>
    var closeCount: nat

    /** An opened stream that holds the given bytes and was never closed. */
    constructor (pending: seq<bv8>)
      ensures this.pending == pending && closeCount == 0
    {
      this.pending := pending;
      closeCount := 0;
    }

    method Read(size: nat) returns (data: seq<bv8>)
      modifies this`pending
      ensures |data| <= size
      ensures old(pending) == data + pending
    {
      var n :| 0 <= n <= size && n <= |pending|;
      data, pending := pending[..n], pending[n..];
      assert old(pending) == data + pending;
    }

    method Close()
      modifies this`closeCount
      ensures closeCount == old(closeCount) + 1
    {
      closeCount := closeCount + 1;
    }
  }

  class StreamContainer {
    const stream: LiveStream
    /** The bytes the stream held when the container was made. */
    ghost const origin: seq<bv8>
    /** The bytes handed to the media engine so far, in order. */
    ghost var delivered: seq<bv8>

    /** Nothing is lost or repeated: what was handed out followed by what
        the stream still holds is what it held at the start. */
    ghost predicate Valid()
      reads this, stream
    {
      delivered + stream.pending == origin
    }

    /** Wraps an opened stream; resolving the stream and registering the
        callbacks are not part of this model. */
    constructor (stream: LiveStream)
      ensures this.stream == stream && Valid()
      ensures delivered == [] && origin == stream.pending
    {
      this.stream := stream;
      origin := stream.pending;
      delivered := [];
      new;
      assert delivered + stream.pending == origin;
    }

    /** The open callback: always succeeds. */
    method Open() returns (status: int)
      ensures status == 0
    {
      status := 0;
    }

    /** The read callback: one read of at most `length` bytes from the
        stream, copied to the front of buf; returns how many bytes were
        copied. Nothing at or past that count is written, and 0 means the
        stream gave nothing. */
    method Read(buf: array<bv8>, length: nat) returns (count: nat)
      requires Valid()
      requires length <= buf.Length
      modifies buf, stream`pending, this`delivered
      ensures Valid()
      ensures count <= length && count <= |old(stream.pending)|
      ensures buf[..count] == old(stream.pending)[..count]
      ensures stream.pending == old(stream.pending)[count..]
      ensures forall j :: count <= j < buf.Length ==> buf[j] == old(buf[j])
      ensures delivered == old(delivered) + buf[..count]
    {
      var data := stream.Read(length);
      for i := 0 to |data|
        modifies buf
        invariant buf[..i] == data[..i]
        invariant forall j :: i <= j < buf.Length ==> buf[j] == old(buf[j])
      {
        buf[i] := data[i];
      }
      assert buf[..|data|] == data;
      delivered := delivered + data;
      count := |data|;
      assert old(stream.pending)[..count] == data;
      assert old(stream.pending)[count..] == stream.pending;
    }

    /** The seek callback: reports success for every offset and changes
        nothing. */
    method Seek(offset: nat) returns (status: int)
      ensures status == 0
    {
      status := 0;
    }

    /** The close callback: closes the stream, once per call, with no check
        for an earlier close. */
    method Close()
      modifies stream`closeCount
      ensures stream.closeCount == old(stream.closeCount) + 1
      ensures stream.pending == old(stream.pending)
    {
      stream.Close();
    }
  }
}
