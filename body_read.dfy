/**
 * The bounded read loop of FetcherDefault.fetch: the response stream is read
 * in chunks of at most 4096 bytes into a buffer until the stream ends or the
 * buffer holds at least CONTENT_LIMIT bytes, in which case reading stops and
 * the content is flagged as truncated.
 */
module BodyRead {
  import opened Wrappers
  import opened Bytes

  /** 100 MiB, the content ceiling in bytes. */
  const CONTENT_LIMIT: nat := 100 * 1024 * 1024

  /** The size of the read buffer, hence the most one `read` call returns. */
  const BUFFER_SIZE: nat := 4096

  /** FileNotFoundException, or any other exception. */
  datatype FailureKind = NotFound | Other

  /** How the stream ends after its last chunk: `read` returns -1, or it throws. */
  datatype StreamEnd = Eof | Fails(kind: FailureKind)

  /** The bytes one `read` call delivers. */
  type Chunk = seq<byte>

  /** What `InputStream.read(buffer, 0, 4096)` guarantees of each chunk. */
  predicate WellFormed(chunks: seq<Chunk>) {
    forall i :: 0 <= i < |chunks| ==> 1 <= |chunks[i]| <= BUFFER_SIZE
  }

  /** The chunks laid end to end: the whole response body. */
  function Flatten(chunks: seq<Chunk>): seq<byte> {
    if |chunks| == 0 then [] else Flatten(chunks[..|chunks| - 1]) + chunks[|chunks| - 1]
  }

  /** After the first `j` chunks the buffer has reached the ceiling. */
  predicate Reaches(chunks: seq<Chunk>, j: nat)
    requires j <= |chunks|
  {
    |Flatten(chunks[..j])| >= CONTENT_LIMIT
  }

  /** The least `j >= from` after which the buffer has reached the ceiling, if any. */
  function FirstReach(chunks: seq<Chunk>, from: nat): (r: Option<nat>)
    requires from <= |chunks|
    ensures r.Some? ==> from <= r.value <= |chunks| && Reaches(chunks, r.value)
    ensures r.Some? ==> forall j :: from <= j < r.value ==> !Reaches(chunks, j)
    ensures r.None? ==> forall j :: from <= j <= |chunks| ==> !Reaches(chunks, j)
    decreases |chunks| - from
  {
    if Reaches(chunks, from) then Some(from)
    else if from == |chunks| then None
    else FirstReach(chunks, from + 1)
  }

  /** The bytes read and whether reading stopped at the ceiling, or the exception that ended it. */
  datatype BodyRead = Read(content: seq<byte>, truncated: bool) | ReadFailed(kind: FailureKind)

  /** The first `k` chunks form a prefix of the body. */
  lemma {:induction false} FlattenPrefix(chunks: seq<Chunk>, k: nat)
    requires k <= |chunks|
    ensures Flatten(chunks[..k]) <= Flatten(chunks)
    decreases |chunks|
  {
    if k < |chunks| {
      var n := |chunks| - 1;
      assert chunks[..n][..k] == chunks[..k];
      FlattenPrefix(chunks[..n], k);
      assert Flatten(chunks) == Flatten(chunks[..n]) + chunks[n];
    } else {
      assert chunks[..k] == chunks;
    }
  }

  /**
   * What the read loop produces: if some chunk brings the buffer to the
   * ceiling, the chunks up to and including the first such one, flagged
   * truncated; otherwise the whole body, or the exception that ends the
   * stream. The content is always a prefix of the body, it is flagged
   * exactly when it holds at least CONTENT_LIMIT bytes, and unflagged
   * content is the whole body.
   */
  function ReadSpec(chunks: seq<Chunk>, end: StreamEnd): (r: BodyRead)
    ensures r.Read? ==> r.content <= Flatten(chunks)
    ensures r.Read? ==> (r.truncated <==> |r.content| >= CONTENT_LIMIT)
    ensures r.Read? && !r.truncated ==> r.content == Flatten(chunks)
    ensures r.ReadFailed? <==> end.Fails? && forall j :: 0 <= j <= |chunks| ==> !Reaches(chunks, j)
    ensures r.ReadFailed? ==> r.kind == end.kind
  {
    match FirstReach(chunks, 0)
    case Some(k) =>
      FlattenPrefix(chunks, k);
      Read(Flatten(chunks[..k]), true)
    case None =>
      assert chunks[..|chunks|] == chunks;
      assert !Reaches(chunks, |chunks|);
      if end.Eof? then Read(Flatten(chunks), false) else ReadFailed(end.kind)
  }

  /** The read loop of fetch, over the chunks the stream delivers. */
  method ReadBody(chunks: seq<Chunk>, end: StreamEnd) returns (r: BodyRead)
    ensures r == ReadSpec(chunks, end)
  {
    var buffer: seq<byte> := [];
    var truncated := false;
    var i := 0;
    while i < |chunks|
      invariant i <= |chunks|
      invariant !truncated
      invariant buffer == Flatten(chunks[..i])
      invariant forall j :: 0 <= j <= i ==> !Reaches(chunks, j)
    {
      assert chunks[..i + 1][..i] == chunks[..i];
      buffer := buffer + chunks[i];
      i := i + 1;
      if |buffer| >= CONTENT_LIMIT {
        truncated := true;
        break;
      }
    }
    if truncated {
      assert Reaches(chunks, i);
      r := Read(buffer, true);
    } else {
      assert chunks[..i] == chunks;
      r := if end.Eof? then Read(buffer, false) else ReadFailed(end.kind);
    }
  }

  /** A body shorter than the ceiling that ends normally is read whole and not flagged. */
  lemma ShortBodyReadWhole(chunks: seq<Chunk>)
    requires |Flatten(chunks)| < CONTENT_LIMIT
    ensures ReadSpec(chunks, Eof) == Read(Flatten(chunks), false)
  {
  }

  /**
   * A body of at least CONTENT_LIMIT bytes, including one of exactly that
   * size, is always flagged truncated, even when the stream would have
   * failed after its last chunk.
   */
  lemma LongBodyFlagged(chunks: seq<Chunk>, end: StreamEnd)
    requires |Flatten(chunks)| >= CONTENT_LIMIT
    ensures ReadSpec(chunks, end).Read? && ReadSpec(chunks, end).truncated
  {
    assert chunks[..|chunks|] == chunks;
    assert Reaches(chunks, |chunks|);
  }

  /**
   * Truncated content overshoots the ceiling by less than one buffer:
   * CONTENT_LIMIT <= |content| < CONTENT_LIMIT + 4096.
   */
  lemma TruncationBound(chunks: seq<Chunk>, end: StreamEnd)
    requires WellFormed(chunks)
    requires ReadSpec(chunks, end).Read? && ReadSpec(chunks, end).truncated
    ensures CONTENT_LIMIT <= |ReadSpec(chunks, end).content| < CONTENT_LIMIT + BUFFER_SIZE
  {
    var k := FirstReach(chunks, 0).value;
    assert !Reaches(chunks, 0) by {
      assert chunks[..0] == [];
    }
    assert chunks[..k][..k - 1] == chunks[..k - 1];
    assert Flatten(chunks[..k]) == Flatten(chunks[..k - 1]) + chunks[k - 1];
    assert !Reaches(chunks, k - 1);
  }
}
