/** The request-body queue of src/tQuicServerStream.cc: a deque of chunks with a pointer into
    its first one, read into a caller's buffer. It is a first-in first-out queue of bytes. */
module BodyQueue {
  import opened Ascii

  const INT_MAX := 0x7FFF_FFFF
  const QUIC_STACK_SERVER := -2
  const QUIC_STACK_STREAM_CLOSED := -4

  lemma AfterFirst(chunks: seq<seq<byte>>, offset: nat, size: nat)
    requires chunks != [] && offset + size <= |chunks[0]|
    ensures |chunks[0]| <= |Flatten(chunks)|
    ensures Flatten(chunks)[offset..][size..] == Flatten(chunks)[offset + size..]
    ensures offset + size == |chunks[0]| ==> Flatten(chunks[1..]) == Flatten(chunks)[offset + size..]
  {
  }

  lemma Handed(delivered: seq<byte>, rest: seq<byte>, size: nat)
    requires size <= |rest|
    ensures delivered + rest == (delivered + rest[..size]) + rest[size..]
  {
  }

  class QueuedWriteIOBuffer {
    /** The chunks, and the distance of `data_` from the start of the first one. */
    var pendingData: seq<seq<byte>>
    var offset: nat
    var totalSize: int
    const maxBufferSize: int
    /** All bytes accepted by Append, and all bytes handed out, since the start. */
    ghost var accepted: seq<byte>
    ghost var delivered: seq<byte>

    ghost function Contents(): seq<byte>
      reads this
    {
      if offset <= |Flatten(pendingData)| then Flatten(pendingData)[offset..] else []
    }

    ghost predicate Valid()
      reads this
    {
      && (forall i | 0 <= i < |pendingData| :: pendingData[i] != [])
      && (if pendingData == [] then offset == 0 else offset < |pendingData[0]|)
      && offset <= |Flatten(pendingData)|
      && totalSize == |Contents()| <= maxBufferSize <= INT_MAX
      && accepted == delivered + Contents()
    }

    constructor (limit: nat)
      requires limit <= INT_MAX
      ensures Valid() && Contents() == [] && maxBufferSize == limit && accepted == [] && delivered == []
    {
      pendingData, offset, totalSize, maxBufferSize := [], 0, 0, limit;
      accepted, delivered := [], [];
    }

    predicate IsEmpty()
      reads this
    {
      pendingData == []
    }

    /** Accepts the data whole or not at all. The test adds two C ints, so the source asks that
        their sum be one. */
    method Append(data: seq<byte>) returns (ok: bool)
      requires Valid() && |data| <= INT_MAX - maxBufferSize
      modifies this
      ensures Valid() && delivered == old(delivered)
      ensures ok <==> data == [] || |old(Contents())| + |data| <= maxBufferSize
      ensures Contents() == old(Contents()) + (if ok then data else [])
      ensures accepted == old(accepted) + (if ok then data else [])
    {
      if data == [] {
        return true;
      }
      if totalSize + |data| > maxBufferSize {
        return false;
      }
      FlattenSnoc(pendingData, data);
      ghost var before := Contents();
      pendingData := pendingData + [data];
      totalSize := totalSize + |data|;
      if |pendingData| == 1 {
        offset := 0;
      }
      accepted := accepted + data;
      assert Contents() == before + data;
      assert delivered + (before + data) == (delivered + before) + data;
      return true;
    }

    function GetSizeToWrite(): (n: nat)
      requires Valid()
      reads this
      ensures IsEmpty() <==> n == 0
      ensures n <= |Contents()|
      ensures !IsEmpty() ==> offset <= |pendingData[0]| && Contents()[..n] == pendingData[0][offset..]
    {
      if IsEmpty() then 0
      else
        assert Flatten(pendingData) == pendingData[0] + Flatten(pendingData[1..]);
        |pendingData[0]| - offset
    }

    method DidConsume(size: nat)
      requires Valid() && size <= GetSizeToWrite()
      modifies this
      ensures Valid() && accepted == old(accepted)
      ensures Contents() == old(Contents())[size..] && delivered == old(delivered) + old(Contents())[..size]
    {
      hide Flatten;
      if size == 0 {
        assert Contents()[0..] == Contents();
        return;
      }
      ghost var before := Contents();
      AfterFirst(pendingData, offset, size);
      Handed(delivered, before, size);
      Advance(size);
      totalSize := totalSize - size;
      delivered := delivered + before[..size];
    }

    /** Moves the pointer on, to the next chunk once the first is used up. */
    method Advance(size: nat)
      requires pendingData != [] && offset + size <= |pendingData[0]|
      modifies this`pendingData, this`offset
      ensures offset <= |Flatten(pendingData)| && old(offset) + size <= |old(Flatten(pendingData))|
      ensures Flatten(pendingData)[offset..] == old(Flatten(pendingData))[old(offset) + size..]
      ensures old(forall i | 0 <= i < |pendingData| :: pendingData[i] != []) ==>
                && (forall i | 0 <= i < |pendingData| :: pendingData[i] != [])
                && (if pendingData == [] then offset == 0 else offset < |pendingData[0]|)
    {
      AfterFirst(pendingData, offset, size);
      if offset + size < |pendingData[0]| {
        offset := offset + size;
      } else {
        pendingData := pendingData[1..];
        offset := 0;
      }
    }
  }

  function Min(a: nat, b: nat): nat { if a <= b then a else b }

  lemma Taken(all: seq<byte>, k: nat, n: nat)
    requires k + n <= |all|
    ensures all[k..][n..] == all[k + n..] && all[..k] + all[k..][..n] == all[..k + n] && all[k..][..n] == all[k..k + n]
  {
  }

  /** One turn of the loop: what the first chunk has left, as far as it fits. */
  method TakeSome(body: QueuedWriteIOBuffer, data: array<byte>, at: nat, left: nat) returns (n: nat)
    requires body.Valid() && !body.IsEmpty() && left > 0 && at + left <= data.Length
    modifies body, data
    ensures body.Valid() && body.accepted == old(body.accepted)
    ensures 0 < n <= left && n <= |old(body.Contents())|
    ensures data[..at] == old(data[..at]) && data[at..at + n] == old(body.Contents())[..n]
            && data[at + n..] == old(data[..])[at + n..]
    ensures body.Contents() == old(body.Contents())[n..]
    ensures body.delivered == old(body.delivered) + old(body.Contents())[..n]
  {
    hide QueuedWriteIOBuffer.Valid, QueuedWriteIOBuffer.Contents, Flatten;
    var size := body.GetSizeToWrite();
    n := if left <= size then left else size;
    ghost var first := body.pendingData[0][body.offset..];
    assert body.pendingData[0][body.offset..body.offset + n] == first[..n];
    assert body.Contents()[..size][..n] == body.Contents()[..n];
    Copy(data, at, body.pendingData[0], body.offset, n);
    body.DidConsume(n);
  }

  /** tQuicServerStream::ReadRequestBody: copies into the caller's buffer until it is full or
      the queue is empty. */
  method ReadRequestBody(body: QueuedWriteIOBuffer, data: array<byte>, length: nat) returns (rc: int)
    requires body.Valid() && length <= data.Length
    modifies body, data
    ensures body.Valid() && body.accepted == old(body.accepted)
    ensures var n := Min(length, |old(body.Contents())|);
            && data[..n] == old(body.Contents())[..n]
            && data[n..] == old(data[..])[n..]
            && body.Contents() == old(body.Contents())[n..]
            && body.delivered == old(body.delivered) + old(body.Contents())[..n]
            && rc == if n > 0 then n
                     else if old(body.Contents()) == [] then QUIC_STACK_STREAM_CLOSED
                     else QUIC_STACK_SERVER
  {
    hide QueuedWriteIOBuffer.Valid, QueuedWriteIOBuffer.Contents, Flatten;
    var left: nat, read: nat := length, 0;
    ghost var all, was := body.Contents(), data[..];
    while !body.IsEmpty() && left > 0
      invariant body.Valid() && body.accepted == old(body.accepted)
      invariant read + left == length && read <= |all| && body.Contents() == all[read..]
      invariant body.delivered == old(body.delivered) + all[..read]
      invariant data[..read] == all[..read] && data[read..] == was[read..]
      decreases left
    {
      ghost var k, before := read, data[..];
      var n := TakeSome(body, data, read, left);
      Taken(all, k, n);
      Taken(before, k, n);
      Taken(was, k, n);
      assert data[..k + n] == data[..k] + data[k..k + n];
      left, read := left - n, read + n;
    }
    EmptyHasNone(body);
    if read > 0 {
      return read;
    }
    if body.IsEmpty() {
      return QUIC_STACK_STREAM_CLOSED;
    }
    return QUIC_STACK_SERVER;
  }

  lemma EmptyHasNone(body: QueuedWriteIOBuffer)
    requires body.Valid()
    ensures body.IsEmpty() <==> body.Contents() == []
  {
  }

  /** memcpy. */
  method Copy(dst: array<byte>, at: nat, src: seq<byte>, from: nat, n: nat)
    requires at + n <= dst.Length && from + n <= |src|
    modifies dst
    ensures dst[..at] == old(dst[..at]) && dst[at..at + n] == src[from..from + n] && dst[at + n..] == old(dst[at + n..])
  {
    forall i | 0 <= i < n {
      dst[at + i] := src[from + i];
    }
  }
}
