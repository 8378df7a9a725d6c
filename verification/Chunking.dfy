// Splitting a body into streamed chunks (pkg/common/envoy/chunking.go).
module Chunking {
  import opened Sequences

  type Byte = bv8
  type Bytes = seq<Byte>

  /** One streamed body message: its bytes and its end-of-stream flag. */
  datatype Chunk = Chunk(body: Bytes, eos: bool)

  const BODY_BYTE_LIMIT := 62000

  /** The chunks of a body: full chunks followed by a remainder, of which only the last may carry EoS. */
  function Chunks(body: Bytes, setEos: bool): (r: seq<Chunk>)
    ensures |r| >= 1
  {
    if |body| <= BODY_BYTE_LIMIT then [Chunk(body, setEos)]
    else [Chunk(body[..BODY_BYTE_LIMIT], false)] + Chunks(body[BODY_BYTE_LIMIT..], setEos)
  }

  /** The bytes a receiver obtains by joining the chunks in order. */
  function Joined(chunks: seq<Chunk>): Bytes {
    if chunks == [] then [] else chunks[0].body + Joined(chunks[1..])
  }

  lemma {:induction false} JoinedConcat(a: seq<Chunk>, b: seq<Chunk>)
    ensures Joined(a + b) == Joined(a) + Joined(b)
  {
    if a == [] {
      assert a + b == b;
    } else {
      JoinedConcat(a[1..], b);
      assert (a + b)[1..] == a[1..] + b && (a + b)[0] == a[0];
      ConcatAssoc(a[0].body, Joined(a[1..]), Joined(b));
    }
  }

  /** Chunking loses nothing, fills every chunk but the last, and marks exactly the last (or none). */
  lemma {:induction false} ChunksFaithful(body: Bytes, setEos: bool)
    ensures Joined(Chunks(body, setEos)) == body
    ensures forall c :: c in Chunks(body, setEos) ==> |c.body| <= 62000
    ensures var cs := Chunks(body, setEos); forall i :: 0 <= i < |cs| - 1 ==> |cs[i].body| == 62000
    ensures var cs := Chunks(body, setEos);
            forall i :: 0 <= i < |cs| ==> (cs[i].eos <==> setEos && i == |cs| - 1)
    decreases |body|
  {
    if |body| <= BODY_BYTE_LIMIT {
      assert Joined(Chunks(body, setEos)) == body + Joined([]);
    } else {
      var rest := Chunks(body[BODY_BYTE_LIMIT..], setEos);
      ChunksFaithful(body[BODY_BYTE_LIMIT..], setEos);
      assert Chunks(body, setEos)[1..] == rest;
      assert body == body[..BODY_BYTE_LIMIT] + body[BODY_BYTE_LIMIT..];
    }
  }

  lemma ChunksOfAppend(head: Bytes, tail: Bytes, setEos: bool)
    requires |head| == BODY_BYTE_LIMIT && |tail| > 0
    ensures Chunks(head + tail, setEos) == [Chunk(head, false)] + Chunks(tail, setEos)
  {
    assert (head + tail)[..BODY_BYTE_LIMIT] == head;
    assert (head + tail)[BODY_BYTE_LIMIT..] == tail;
  }

  method BuildChunkedBodyResponses(body: Bytes, setEos: bool) returns (responses: seq<Chunk>)
    ensures responses == Chunks(body, setEos)
  {
    responses := [];
    var start := 0;
    if |body| == 0 {
      return [Chunk(body, setEos)];
    }
    while start < |body|
      invariant 0 <= start <= |body|
      invariant start < |body| ==> responses + Chunks(body[start..], setEos) == Chunks(body, setEos)
      invariant start == |body| ==> responses == Chunks(body, setEos)
    {
      var len := if |body| - start < BODY_BYTE_LIMIT then |body| - start else BODY_BYTE_LIMIT;
      var chunk := body[start..start + len];
      var eos := setEos && start + len >= |body|;
      if start + len < |body| {
        ChunksOfAppend(chunk, body[start + len..], setEos);
        assert body[start..] == chunk + body[start + len..];
      } else {
        assert body[start..] == chunk;
      }
      responses := responses + [Chunk(chunk, eos)];
      start := start + len;
    }
  }
}
