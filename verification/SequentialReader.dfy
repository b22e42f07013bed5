/**
 The forward-only byte reader that stands in for random access while a page
 index is built from a stream. The reader keeps three variables and drops every
 byte in front of the last requested range.
 */
module SequentialReader {
  import opened Common

  const MAX_SLICE: nat := 65536

  datatype SliceError = InvalidRange | Truncated

  function Flatten(chunks: seq<seq<Byte>>): seq<Byte> {
    if chunks == [] then [] else chunks[0] + Flatten(chunks[1..])
  }

  /** A one-way stream: `Read` hands out the next chunk, which may be empty. */
  class ChunkStream {
    var chunks: seq<seq<Byte>>

    constructor (chunks: seq<seq<Byte>>)
      ensures this.chunks == chunks
    {
      this.chunks := chunks;
    }

    method Read() returns (next: Option<seq<Byte>>)
      modifies this
      ensures old(chunks) == [] ==> next == None && chunks == []
      ensures old(chunks) != [] ==> next == Some(old(chunks)[0]) && chunks == old(chunks)[1..]
    {
      if chunks == [] {
        next := None;
      } else {
        next, chunks := Some(chunks[0]), chunks[1..];
      }
    }
  }

  /** What one call asks for, and the start below which no later call may reach. */
  datatype Range = Range(start: int, end: int)

  predicate Rejected(byteLength: nat, floor: int, q: Range) {
    q.start < floor || q.end < q.start || q.end > byteLength || q.end - q.start > MAX_SLICE
  }

  /** The answer of a plain file that can be read at any place. */
  function RandomAccess(file: seq<Byte>, q: Range): (r: Result<seq<Byte>, SliceError>)
    requires 0 <= q.start <= q.end
  {
    if q.end <= |file| then Ok(file[q.start..q.end]) else Err(Truncated)
  }

  /** The reader seen from outside: a file, its announced length, and a floor. */
  function Answer(file: seq<Byte>, byteLength: nat, floor: nat, q: Range): (r: (Result<seq<Byte>, SliceError>, nat))
  {
    if Rejected(byteLength, floor, q) then (Err(InvalidRange), floor)
    else (RandomAccess(file, q), Min(q.start, |file|))
  }

  function Answers(file: seq<Byte>, byteLength: nat, floor: nat, qs: seq<Range>)
    : (rs: seq<Result<seq<Byte>, SliceError>>)
    ensures |rs| == |qs|
    decreases |qs|
  {
    if qs == [] then []
    else
      var (r, floor') := Answer(file, byteLength, floor, qs[0]);
      [r] + Answers(file, byteLength, floor', qs[1..])
  }

  ghost predicate Ascending(byteLength: nat, floor: nat, qs: seq<Range>) {
    && (forall i :: 0 <= i < |qs| ==> floor <= qs[i].start <= qs[i].end <= byteLength
                                      && qs[i].end - qs[i].start <= MAX_SLICE)
    && (forall i, j :: 0 <= i < j < |qs| ==> qs[i].start <= qs[j].start)
  }

  /** Reads that never go back see the whole file, exactly as random access does. */
  lemma {:induction false} AscendingReadsSeeTheFile(file: seq<Byte>, floor: nat, qs: seq<Range>)
    requires Ascending(|file|, floor, qs)
    ensures forall i :: 0 <= i < |qs| ==> Answers(file, |file|, floor, qs)[i] == Ok(file[qs[i].start..qs[i].end])
    decreases |qs|
  {
    if qs != [] {
      AscendingReadsSeeTheFile(file, qs[0].start, qs[1..]);
      forall i | 0 < i < |qs|
        ensures Answers(file, |file|, floor, qs)[i] == Ok(file[qs[i].start..qs[i].end])
      {
        assert qs[i] == qs[1..][i - 1];
      }
    }
  }

  /** Conversely a read below the last accepted start is refused, whatever the file. */
  lemma BackwardReadRefused(file: seq<Byte>, byteLength: nat, floor: nat, first: Range, second: Range)
    requires !Rejected(byteLength, floor, first) && first.end <= |file|
    requires second.start < first.start
    ensures Answers(file, byteLength, floor, [first, second])
            == [Ok(file[first.start..first.end]), Err(InvalidRange)]
  {
    var rest := [second];
    assert [first, second][1..] == rest;
    assert rest[1..] == [];
  }

  lemma NextChunk(file: seq<Byte>, position: nat, chunk: seq<Byte>, rest: seq<Byte>)
    requires position <= |file| && file[position..] == chunk + rest
    ensures position + |chunk| <= |file|
    ensures file[position..position + |chunk|] == chunk && file[position + |chunk|..] == rest
  {
    assert file[position..][..|chunk|] == chunk;
    assert file[position..][|chunk|..] == rest;
  }

  lemma JoinChunk(file: seq<Byte>, position: nat, start: nat, chunk: seq<Byte>)
    requires start < position + |chunk| <= |file|
    requires file[position..position + |chunk|] == chunk
    ensures file[Min(start, position)..position] + chunk[Max(0, start - position)..] == file[start..position + |chunk|]
  {
  }

  lemma Trim(file: seq<Byte>, offset: nat, position: nat, start: nat)
    requires offset <= start && offset <= position <= |file|
    ensures file[offset..position][Min(start - offset, position - offset)..] == file[Min(start, position)..position]
  {
  }

  lemma Head(file: seq<Byte>, start: nat, end: nat, position: nat)
    requires start <= end <= position <= |file|
    ensures file[start..position][..end - start] == file[start..end]
  {
  }

  class SequentialBuffer {
    const byteLength: nat
    const stream: ChunkStream
    ghost const file: seq<Byte>
    ghost const maxChunk: nat
    var buffer: seq<Byte>
    var offset: nat
    var position: nat

    ghost predicate Valid()
      reads this, stream
    {
      && offset <= position <= |file|
      && buffer == file[offset..position]
      && file[position..] == Flatten(stream.chunks)
      && (forall c :: c in stream.chunks ==> |c| <= maxChunk)
    }

    /** Retained bytes: one requested range, plus what the last chunk overshot. */
    ghost predicate Bounded()
      reads this
    {
      |buffer| <= MAX_SLICE + maxChunk - 1
    }

    constructor (stream: ChunkStream, byteLength: nat, ghost maxChunk: nat)
      requires forall c :: c in stream.chunks ==> |c| <= maxChunk
      ensures Valid() && Bounded()
      ensures this.stream == stream && this.byteLength == byteLength && this.maxChunk == maxChunk
      ensures file == Flatten(stream.chunks) && offset == 0 && position == 0
    {
      this.stream, this.byteLength := stream, byteLength;
      this.file, this.maxChunk := Flatten(stream.chunks), maxChunk;
      buffer, offset, position := [], 0, 0;
    }

    /** Take one chunk, keeping only what lies at or after `start`; false at the end of the stream. */
    method Pull(start: nat) returns (more: bool)
      requires Valid() && offset == Min(start, position)
      modifies this, stream
      ensures Valid() && offset == Min(start, position)
      ensures !more ==> position == old(position) == |file|
      ensures more ==> old(position) <= position <= old(position) + maxChunk && |stream.chunks| < |old(stream.chunks)|
    {
      ghost var chunks := stream.chunks;
      var next := stream.Read();
      if next == None {
        return false;
      }
      var chunk := next.value;
      assert chunk in chunks;
      NextChunk(file, position, chunk, Flatten(stream.chunks));
      var chunkStart := position;
      position := position + |chunk|;
      if position <= start {
        offset := position;
        return true;
      }
      JoinChunk(file, chunkStart, start, chunk);
      var incoming := chunk[Max(0, start - chunkStart)..];
      buffer := buffer + incoming;
      offset := start;
      return true;
    }

    /**
     The answer and the new floor are those of `Answer`; a rejected call changes
     nothing; no chunk is pulled unless the range still needs bytes.
     */
    method Slice(start: int, end: int) returns (r: Result<seq<Byte>, SliceError>)
      requires Valid() && Bounded()
      modifies this, stream
      ensures Valid() && Bounded()
      ensures (r, offset) == Answer(file, byteLength, old(offset), Range(start, end))
      ensures r == Err(InvalidRange) ==>
              buffer == old(buffer) && position == old(position) && stream.chunks == old(stream.chunks)
      ensures position == old(position) || position < end + maxChunk
    {
      if start < offset || end < start || end > byteLength || end - start > MAX_SLICE {
        return Err(InvalidRange);
      }
      if start > offset {
        Trim(file, offset, position, start);
        buffer := buffer[Min(start - offset, |buffer|)..];
        offset := Min(start, position);
      }
      while position < end
        invariant Valid() && offset == Min(start, position)
        invariant position == old(position) || position < end + maxChunk
        decreases |stream.chunks|
      {
        var more := Pull(start);
        if !more {
          return Err(Truncated);
        }
      }
      Head(file, start, end, position);
      return Ok(buffer[..end - start]);
    }
  }
}
