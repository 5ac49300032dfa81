/** Reading one response body under a byte limit and a read budget, into a buffer that is wiped on every exit. */
module BoundedReader {
  import opened FixedPoint

  newtype byte = x: int | 0 <= x < 256

  /** One item of the response iterator; `NotBytes` is any truthy item of another type. */
  datatype Chunk = Bytes(data: seq<byte>) | NotBytes {
    predicate Falsy() { this == Bytes([]) }
  }

  datatype Error = TooLong | Late | WrongType | EndedEarly | EmptyBody

  datatype Result = Body(bytes: seq<byte>) | Failed(error: Error)

  /** The body's own length is checked once reading stops. */
  function Finish(taken: seq<byte>, length: Option<nat>): Result {
    if length.Some? && |taken| != length.value then Failed(EndedEarly)
    else if taken == [] then Failed(EmptyBody)
    else Body(taken)
  }

  /** The reads that remain, after `taken`, when at most `budget` reads meet the deadline. */
  function ReadRest(chunks: seq<Chunk>, taken: seq<byte>, length: Option<nat>, limit: nat, budget: nat): Result {
    if length.Some? && length.value <= |taken| then Finish(taken, length)
    else if budget == 0 then Failed(Late)
    else if chunks == [] then Finish(taken, length)
    else if chunks[0].Falsy() then ReadRest(chunks[1..], taken, length, limit, budget - 1)
    else if chunks[0].NotBytes? then Failed(WrongType)
    else
      var more := taken + chunks[0].data;
      if |more| > limit then Failed(TooLong)
      else if length.None? && |more| == limit then
        if budget == 1 then Failed(Late)
        else if |chunks| > 1 && !chunks[1].Falsy() then Failed(TooLong)
        else Finish(more, length)
      else ReadRest(chunks[1..], more, length, limit, budget - 1)
  }

  function ReadAll(chunks: seq<Chunk>, length: Option<nat>, limit: nat, budget: nat): Result {
    if length.Some? && length.value > limit then Failed(TooLong) else ReadRest(chunks, [], length, limit, budget)
  }

  ghost predicate Wiped(buffer: array<byte>)
    reads buffer
  {
    forall i | 0 <= i < buffer.Length :: buffer[i] == 0
  }

  /** `bytearray.extend`. */
  method Extend(buffer: array<byte>, n: nat, data: seq<byte>)
    requires n + |data| <= buffer.Length
    requires forall i | n <= i < buffer.Length :: buffer[i] == 0
    modifies buffer
    ensures buffer[..n + |data|] == old(buffer[..n]) + data
    ensures forall i | n + |data| <= i < buffer.Length :: buffer[i] == 0
  {
    for k := 0 to |data|
      invariant buffer[..n + k] == old(buffer[..n]) + data[..k]
      invariant forall i | n + k <= i < buffer.Length :: buffer[i] == 0
    {
      buffer[n + k] := data[k];
      assert data[..k + 1] == data[..k] + [data[k]];
      assert buffer[..n + k + 1] == buffer[..n + k] + [data[k]];
    }
    assert data[..|data|] == data;
  }

  /** The `finally` clause: the bytes read so far become zero. */
  method Wipe(buffer: array<byte>, n: nat)
    requires n <= buffer.Length && forall i | n <= i < buffer.Length :: buffer[i] == 0
    modifies buffer
    ensures Wiped(buffer)
  {
    for k := 0 to n
      invariant forall i | 0 <= i < k :: buffer[i] == 0
      invariant forall i | n <= i < buffer.Length :: buffer[i] == 0
    {
      buffer[k] := 0;
    }
  }

  /** The reading loop; it leaves the taken bytes in the buffer and counts them. */
  method Fill(chunks: seq<Chunk>, length: Option<nat>, limit: nat, budget: nat, buffer: array<byte>)
    returns (n: nat, failure: Option<Error>)
    requires buffer.Length == limit && Wiped(buffer)
    modifies buffer
    ensures n <= limit && forall i | n <= i < limit :: buffer[i] == 0
    ensures ReadRest(chunks, [], length, limit, budget)
            == (if failure.Some? then Failed(failure.value) else Finish(buffer[..n], length))
  {
    n := 0;
    var at, left := 0, budget;
    while length.None? || n < length.value
      invariant at <= |chunks| && n <= limit
      invariant forall i | n <= i < limit :: buffer[i] == 0
      invariant ReadRest(chunks, [], length, limit, budget) == ReadRest(chunks[at..], buffer[..n], length, limit, left)
      decreases left
    {
      if left == 0 { return n, Some(Late); }
      if at == |chunks| { return n, None; }
      var chunk := chunks[at];
      at, left := at + 1, left - 1;
      if !chunk.Falsy() {
        if chunk.NotBytes? { return n, Some(WrongType); }
        if n + |chunk.data| > limit { return n, Some(TooLong); }
        Extend(buffer, n, chunk.data);
        n := n + |chunk.data|;
        if length.None? && n == limit {
          if left == 0 { return n, Some(Late); }
          return n, if at < |chunks| && !chunks[at].Falsy() then Some(TooLong) else None;
        }
      }
    }
    failure := None;
  }

  /** `_read_bounded_json_response`: the bytes it decodes, in a buffer no larger than the limit, wiped on every exit. */
  method ReadBounded(chunks: seq<Chunk>, length: Option<nat>, limit: nat, budget: nat, buffer: array<byte>)
    returns (r: Result)
    requires buffer.Length == limit && Wiped(buffer)
    modifies buffer
    ensures Wiped(buffer)
    ensures r == ReadAll(chunks, length, limit, budget)
  {
    if length.Some? && length.value > limit { return Failed(TooLong); }
    var n, failure := Fill(chunks, length, limit, budget, buffer);
    r := if failure.Some? then Failed(failure.value) else Finish(buffer[..n], length);
    Wipe(buffer, n);
  }

  // ----- What is read -----

  function Stream(chunks: seq<Chunk>): seq<byte>
    requires AllBytes(chunks)
  {
    if chunks == [] then [] else chunks[0].data + Stream(chunks[1..])
  }

  predicate AllBytes(chunks: seq<Chunk>) { forall i | 0 <= i < |chunks| :: chunks[i].Bytes? }

  /** The verdict on a whole stream without a declared length. */
  function Judge(stream: seq<byte>, limit: nat): Result {
    if stream == [] then Failed(EmptyBody) else if |stream| > limit then Failed(TooLong) else Body(stream)
  }

  /** The stream reaches the limit, an empty chunk follows, and bytes follow that. */
  predicate CutShort(chunks: seq<Chunk>, taken: nat, limit: nat)
    requires AllBytes(chunks)
  {
    if chunks == [] then false
    else if chunks[0].Falsy() then CutShort(chunks[1..], taken, limit)
    else if taken + |chunks[0].data| >= limit then
      taken + |chunks[0].data| == limit && |chunks| > 1 && chunks[1].Falsy() && Stream(chunks[2..]) != []
    else CutShort(chunks[1..], taken + |chunks[0].data|, limit)
  }

  lemma {:induction false} StreamTail(chunks: seq<Chunk>, taken: seq<byte>)
    requires AllBytes(chunks) && chunks != []
    ensures taken + Stream(chunks) == (taken + chunks[0].data) + Stream(chunks[1..])
  {
  }

  lemma {:induction false} LimitReached(chunks: seq<Chunk>, taken: seq<byte>, limit: nat, budget: nat)
    requires AllBytes(chunks) && 0 < |chunks| < budget && chunks[0].data != [] && |taken| + |chunks[0].data| == limit
    ensures ReadRest(chunks, taken, None, limit, budget) == Judge(taken + Stream(chunks), limit)
            <==> !CutShort(chunks, |taken|, limit)
  {
    var more, rest := taken + chunks[0].data, chunks[1..];
    StreamTail(chunks, taken);
    if rest != [] { StreamTail(rest, more); }
  }

  /** Without a declared length, the verdict is the one on the whole stream unless the stream is cut short. */
  lemma {:induction false} UndeclaredExactly(chunks: seq<Chunk>, taken: seq<byte>, limit: nat, budget: nat)
    requires AllBytes(chunks) && |chunks| < budget && (taken == [] || |taken| < limit)
    ensures ReadRest(chunks, taken, None, limit, budget) == Judge(taken + Stream(chunks), limit)
            <==> !CutShort(chunks, |taken|, limit)
    decreases |chunks|
  {
    if chunks == [] {
      assert taken + Stream(chunks) == taken;
    } else {
      StreamTail(chunks, taken);
      var more, rest := taken + chunks[0].data, chunks[1..];
      if chunks[0].Falsy() {
        assert more == taken;
        UndeclaredExactly(rest, taken, limit, budget - 1);
      } else if |more| < limit {
        UndeclaredExactly(rest, more, limit, budget - 1);
      } else if |more| == limit {
        LimitReached(chunks, taken, limit, budget);
      }
    }
  }

  /** Some chunk boundary falls `gap` bytes on. */
  ghost predicate Boundary(chunks: seq<Chunk>, gap: nat)
    requires AllBytes(chunks)
  {
    exists k :: 0 <= k <= |chunks| && |Stream(chunks[..k])| == gap
  }

  lemma {:induction false} StreamStart(chunks: seq<Chunk>, k: nat)
    requires AllBytes(chunks) && 0 < k <= |chunks|
    ensures Stream(chunks[..k]) == chunks[0].data + Stream(chunks[1..][..k - 1])
  {
    assert chunks[..k][1..] == chunks[1..][..k - 1];
  }

  /** The boundaries after the first chunk are those of the rest. */
  lemma {:induction false} BoundaryStep(chunks: seq<Chunk>, gap: nat)
    requires AllBytes(chunks) && chunks != [] && 0 < gap
    ensures Boundary(chunks, gap) <==> |chunks[0].data| <= gap && Boundary(chunks[1..], gap - |chunks[0].data|)
  {
    var rest := chunks[1..];
    if Boundary(chunks, gap) {
      var k :| 0 <= k <= |chunks| && |Stream(chunks[..k])| == gap;
      assert chunks[..0] == [];
      StreamStart(chunks, k);
      assert |Stream(rest[..k - 1])| == gap - |chunks[0].data|;
    }
    if |chunks[0].data| <= gap && Boundary(rest, gap - |chunks[0].data|) {
      var k :| 0 <= k <= |rest| && |Stream(rest[..k])| == gap - |chunks[0].data|;
      StreamStart(chunks, k + 1);
    }
  }

  /** A declared length gives a body exactly when some chunk boundary falls there, whatever the chunk sizes. */
  lemma {:induction false} DeclaredExactly(chunks: seq<Chunk>, taken: seq<byte>, length: nat, limit: nat, budget: nat)
    requires AllBytes(chunks) && |chunks| < budget && |taken| <= length <= limit && 0 < length
    ensures var r := ReadRest(chunks, taken, Some(length), limit, budget);
            var stream := taken + Stream(chunks);
            && (r.Body? <==> Boundary(chunks, length - |taken|))
            && (r.Body? ==> length <= |stream| && r.bytes == stream[..length])
            && (|stream| < length ==> r == Failed(EndedEarly))
            && (r.Failed? ==> r.error in {EndedEarly, TooLong})
    decreases |chunks|
  {
    var stream := taken + Stream(chunks);
    if |taken| == length {
      assert chunks[..0] == [] && stream[..length] == taken;
    } else if chunks == [] {
      assert stream == taken;
      assert forall k | 0 <= k <= |chunks| :: chunks[..k] == [];
    } else {
      StreamTail(chunks, taken);
      BoundaryStep(chunks, length - |taken|);
      var more := taken + chunks[0].data;
      if chunks[0].Falsy() { assert more == taken; }
      if |more| <= length {
        DeclaredExactly(chunks[1..], more, length, limit, budget - 1);
      }
    }
  }

  /** Byte by byte there is a boundary at every length that the stream reaches. */
  lemma {:induction false} SmallChunksReach(chunks: seq<Chunk>, gap: nat)
    requires AllBytes(chunks) && (forall i | 0 <= i < |chunks| :: |chunks[i].data| <= 1) && gap <= |Stream(chunks)|
    ensures Boundary(chunks, gap)
  {
    if gap == 0 {
      assert chunks[..0] == [];
    } else {
      SmallChunksReach(chunks[1..], gap - |chunks[0].data|);
      BoundaryStep(chunks, gap);
    }
  }

  /** For any chunk sizes, a body is a non-empty start of the stream, within the limit and as long as declared. */
  lemma {:induction false} BodyIsAPrefix(chunks: seq<Chunk>, taken: seq<byte>, length: Option<nat>, limit: nat,
                                         budget: nat)
    requires AllBytes(chunks) && |taken| <= limit
    ensures var r := ReadRest(chunks, taken, length, limit, budget);
            r.Body? ==> && 0 < |r.bytes| <= limit && r.bytes <= taken + Stream(chunks)
                        && (length.Some? ==> |r.bytes| == length.value)
    decreases |chunks|
  {
    if chunks != [] {
      StreamTail(chunks, taken);
      var more := taken + chunks[0].data;
      if chunks[0].Falsy() { assert more == taken; }
      if budget > 0 && |more| <= limit { BodyIsAPrefix(chunks[1..], more, length, limit, budget - 1); }
    }
  }

  /** Chunks that each hold a byte, as the caller asks for, are never cut short. */
  lemma {:induction false} NonEmptyChunksAreNotCut(chunks: seq<Chunk>, taken: nat, limit: nat)
    requires AllBytes(chunks) && forall i | 0 <= i < |chunks| :: chunks[i].data != []
    ensures !CutShort(chunks, taken, limit)
    decreases |chunks|
  {
    if chunks != [] {
      NonEmptyChunksAreNotCut(chunks[1..], taken + |chunks[0].data|, limit);
    }
  }

  /** The verdict on a stream for a declared or undeclared length. */
  function Verdict(stream: seq<byte>, length: Option<nat>, limit: nat): Result {
    if length.None? then Judge(stream, limit)
    else if length.value > limit then Failed(TooLong)
    else if |stream| < length.value then Failed(EndedEarly)
    else if length.value == 0 then Failed(EmptyBody)
    else Body(stream[..length.value])
  }

  /** Byte by byte and within the deadline, the outcome is a function of the stream alone. */
  lemma {:induction false} OneByteReadsAreExact(chunks: seq<Chunk>, length: Option<nat>, limit: nat, budget: nat)
    requires AllBytes(chunks) && |chunks| < budget && forall i | 0 <= i < |chunks| :: |chunks[i].data| == 1
    ensures ReadAll(chunks, length, limit, budget) == Verdict(Stream(chunks), length, limit)
  {
    assert [] + Stream(chunks) == Stream(chunks);
    if length.None? {
      NonEmptyChunksAreNotCut(chunks, 0, limit);
      UndeclaredExactly(chunks, [], limit, budget);
    } else if length.value <= limit && 0 < length.value {
      DeclaredExactly(chunks, [], length.value, limit, budget);
      if length.value <= |Stream(chunks)| { SmallChunksReach(chunks, length.value); }
    }
  }

  /** An empty chunk at the limit hides the rest: one byte is accepted from a stream of two. */
  lemma {:induction false} EmptyChunkHidesTheRest()
    ensures var chunks := [Bytes([7]), Bytes([]), Bytes([8])];
            ReadAll(chunks, None, 1, 4) == Body([7]) && Judge(Stream(chunks), 1) == Failed(TooLong)
  {
    var chunks := [Bytes([7]), Bytes([]), Bytes([8])];
    assert Stream(chunks[2..]) == [8];
    assert Stream(chunks[1..]) == [8];
  }

  // ----- What stops a read -----

  /** A body is the bytes of the first chunks, all of them bytes; `k` is how many were read. */
  lemma {:induction false} BodyIsWhatWasRead(chunks: seq<Chunk>, taken: seq<byte>, length: Option<nat>, limit: nat,
                                             budget: nat)
    returns (k: nat)
    requires ReadRest(chunks, taken, length, limit, budget).Body?
    ensures k <= |chunks| && k <= budget && AllBytes(chunks[..k])
    ensures ReadRest(chunks, taken, length, limit, budget).bytes == taken + Stream(chunks[..k])
    decreases |chunks|
  {
    assert chunks[..0] == [];
    if (length.Some? && length.value <= |taken|) || chunks == [] {
      k := 0;
    } else {
      var more := taken + chunks[0].data;
      if chunks[0].Falsy() { assert more == taken; }
      if length.None? && |more| == limit && !chunks[0].Falsy() {
        k := 1;
        assert chunks[..1][1..] == [];
      } else {
        var j := BodyIsWhatWasRead(chunks[1..], more, length, limit, budget - 1);
        k := j + 1;
        StepRead(chunks, taken, j);
      }
    }
  }

  lemma {:induction false} StepRead(chunks: seq<Chunk>, taken: seq<byte>, j: nat)
    requires chunks != [] && chunks[0].Bytes? && j < |chunks| && AllBytes(chunks[1..][..j])
    ensures AllBytes(chunks[..j + 1])
    ensures taken + Stream(chunks[..j + 1]) == (taken + chunks[0].data) + Stream(chunks[1..][..j])
  {
    assert chunks[..j + 1][1..] == chunks[1..][..j];
    assert chunks[..j + 1] == [chunks[0]] + chunks[1..][..j];
  }

  /** A chunk that is not bytes ends the read, when the read gets to it. */
  lemma {:induction false} NotBytesIsRefused(chunks: seq<Chunk>, taken: seq<byte>, length: Option<nat>, limit: nat,
                                             budget: nat, k: nat)
    requires k < |chunks| && k < budget && chunks[k].NotBytes? && AllBytes(chunks[..k])
    requires |taken| + |Stream(chunks[..k])| < if length.Some? && length.value <= limit then length.value else limit
    requires length.Some? ==> length.value <= limit
    ensures ReadRest(chunks, taken, length, limit, budget) == Failed(WrongType)
    decreases k
  {
    if k > 0 {
      assert chunks[..k][0] == chunks[0];
      var more := taken + chunks[0].data;
      assert chunks[..k][1..] == chunks[1..][..k - 1];
      assert AllBytes(chunks[1..][..k - 1]);
      if chunks[0].Falsy() { assert more == taken; }
      NotBytesIsRefused(chunks[1..], more, length, limit, budget - 1, k - 1);
    }
  }

  /** Byte by byte, the deadline is missed exactly when the budget ends before the stream, the limit and the length. */
  lemma {:induction false} LateExactly(chunks: seq<Chunk>, taken: seq<byte>, length: Option<nat>, limit: nat,
                                       budget: nat)
    requires AllBytes(chunks) && forall i | 0 <= i < |chunks| :: |chunks[i].data| == 1
    requires |taken| <= limit && (length.None? ==> |taken| < limit || taken == [])
    requires length.Some? ==> |taken| <= length.value <= limit
    ensures ReadRest(chunks, taken, length, limit, budget) == Failed(Late) <==>
            && budget <= |chunks|
            && (if length.Some? then |taken| + budget < length.value else |taken| + budget <= limit)
    decreases |chunks|
  {
    if chunks != [] && budget > 0 && !(length.Some? && length.value <= |taken|) {
      var more := taken + chunks[0].data;
      if |more| <= limit && !(length.None? && |more| == limit) {
        LateExactly(chunks[1..], more, length, limit, budget - 1);
      }
    }
  }
}
