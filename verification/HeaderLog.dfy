// Body-based routing: the log of header edits a request message keeps (pkg/bbr/framework/types.go) and the replies made
// from it (pkg/bbr/handlers/request.go).
module HeaderLog {
  import opened Wrappers
  import opened Chunking
  import opened EndpointNames

  type Headers = map<string, string>
  type Json(==, !new)
  type Body = map<string, Json>

  const CONTENT_LENGTH := "Content-Length"

  datatype Message = Message(headers: Headers, body: Body, mutated: Headers, removed: set<string>, bodyMutated: bool)

  datatype Edit =
    | SetHeader(key: string, value: string)
    | RemoveHeader(key: string)
    | SetBody(body: Body)
    | SetBodyField(key: string, json: Json)
    | RemoveBodyField(key: string)

  function Edited(m: Message, e: Edit): Message {
    match e
    case SetHeader(k, v) =>
      if k in m.headers && m.headers[k] == v then m
      else m.(headers := m.headers[k := v], mutated := m.mutated[k := v], removed := m.removed - {k})
    case RemoveHeader(k) =>
      if k !in m.headers then m
      else m.(headers := m.headers - {k}, mutated := m.mutated - {k}, removed := m.removed + {k})
    case SetBody(body) => m.(body := body, bodyMutated := true)
    case SetBodyField(k, json) => m.(body := m.body[k := json], bodyMutated := true)
    case RemoveBodyField(k) => if k in m.body then m.(body := m.body - {k}, bodyMutated := true) else m
  }

  function EditedBy(m: Message, edits: seq<Edit>): Message {
    if edits == [] then m else Edited(EditedBy(m, edits[..|edits| - 1]), edits[|edits| - 1])
  }

  function Received(headers: Headers, body: Body): Message { Message(headers, body, map[], {}, false) }

  // ---- Replaying the log ----

  function SetsThenRemoves(original: Headers, sets: Headers, removes: set<string>): Headers {
    (original + sets) - removes
  }

  function RemovesThenSets(original: Headers, sets: Headers, removes: set<string>): Headers {
    (original - removes) + sets
  }

  predicate Replays(original: Headers, m: Message) {
    && m.mutated.Keys !! m.removed
    && m.headers == SetsThenRemoves(original, m.mutated, m.removed)
    && m.headers == RemovesThenSets(original, m.mutated, m.removed)
  }

  lemma SetKeepsLog(original: Headers, headers: Headers, sets: Headers, removes: set<string>, k: string, v: string)
    requires headers == SetsThenRemoves(original, sets, removes)
    ensures headers[k := v] == SetsThenRemoves(original, sets[k := v], removes - {k})
  {
  }

  lemma RemoveKeepsLog(original: Headers, headers: Headers, sets: Headers, removes: set<string>, k: string)
    requires headers == SetsThenRemoves(original, sets, removes)
    ensures headers - {k} == SetsThenRemoves(original, sets - {k}, removes + {k})
  {
  }

  lemma EditKeepsLog(original: Headers, m: Message, e: Edit)
    requires Replays(original, m)
    ensures Replays(original, Edited(m, e))
  {
    hide SetsThenRemoves, RemovesThenSets;
    match e {
      case SetHeader(k, v) => SetKeepsLog(original, m.headers, m.mutated, m.removed, k, v);
      case RemoveHeader(k) => RemoveKeepsLog(original, m.headers, m.mutated, m.removed, k);
      case _ =>
    }
    var r := Edited(m, e);
    SameReplay(original, r.mutated, r.removed);
  }

  /** Both orders come to the same when no header is set and removed. */
  lemma SameReplay(original: Headers, sets: Headers, removes: set<string>)
    requires sets.Keys !! removes
    ensures SetsThenRemoves(original, sets, removes) == RemovesThenSets(original, sets, removes)
  {
  }

  /** After any edits, what was set and what was removed, replayed in either order on the original headers, gives the
      final headers; and nothing is both set and removed. */
  lemma {:induction false} LogReplays(original: Headers, body: Body, edits: seq<Edit>)
    ensures Replays(original, EditedBy(Received(original, body), edits))
    decreases |edits|
  {
    if edits != [] {
      var before := EditedBy(Received(original, body), edits[..|edits| - 1]);
      LogReplays(original, body, edits[..|edits| - 1]);
      EditKeepsLog(original, before, edits[|edits| - 1]);
    }
  }

  // ---- Replies ----

  datatype Reply =
    | HeadersReply(sets: Headers, removes: set<string>)
    | ChunkReply(chunk: Chunk)
    | WholeReply(sets: Headers, removes: set<string>, body: Option<Bytes>)

  datatype Failure = BadRequest | PluginFailed | MarshalFailed

  function ChunkReplies(chunks: seq<Chunk>): seq<Reply> {
    if chunks == [] then [] else ChunkReplies(chunks[..|chunks| - 1]) + [ChunkReply(chunks[|chunks| - 1])]
  }

  /** The message once the length header is set, and the bytes to send on. */
  function Sized(m: Message, streaming: bool, raw: Bytes, marshal: Body -> Option<Bytes>)
    : Result<(Message, Bytes), Failure>
  {
    if m.bodyMutated then
      if marshal(m.body).None? then Err(MarshalFailed)
      else Ok((Edited(m, SetHeader(CONTENT_LENGTH, Itoa(|marshal(m.body).value|))), marshal(m.body).value))
    else if streaming then Ok((Edited(m, SetHeader(CONTENT_LENGTH, Itoa(|raw|))), raw))
    else Ok((m, raw))
  }

  function Replies(m: Message, streaming: bool, bytes: Bytes): seq<Reply> {
    if streaming then [HeadersReply(m.mutated, m.removed)] + ChunkReplies(Chunks(bytes, true))
    else [WholeReply(m.mutated, m.removed, if m.bodyMutated then Some(bytes) else None)]
  }

  /** What a request body is answered with; `edits` are what the plugins do until they end, or one of them fails. */
  function Handled(headers: Headers, streaming: bool, raw: Bytes, edits: seq<Edit>, pluginFails: bool,
                   parse: Bytes -> Option<Body>, marshal: Body -> Option<Bytes>): Result<seq<Reply>, Failure>
  {
    if parse(raw).None? then Err(BadRequest)
    else if pluginFails then Err(PluginFailed)
    else
      match Sized(EditedBy(Received(headers, parse(raw).value), edits), streaming, raw, marshal)
      case Err(f) => Err(f)
      case Ok((m, bytes)) => Ok(Replies(m, streaming, bytes))
  }

  class InferenceMessage {
    var headers: Headers
    var body: Body
    var mutatedHeaders: Headers
    var removedHeaders: set<string>
    var bodyMutated: bool

    ghost function View(): Message
      reads this
    {
      Message(headers, body, mutatedHeaders, removedHeaders, bodyMutated)
    }

    constructor (headers: Headers)
      ensures View() == Received(headers, map[])
    {
      this.headers, body, mutatedHeaders, removedHeaders, bodyMutated := headers, map[], map[], {}, false;
    }

    method SetHeader(key: string, value: string)
      modifies this
      ensures View() == Edited(old(View()), Edit.SetHeader(key, value))
    {
      if key !in headers || headers[key] != value {
        headers := headers[key := value];
        mutatedHeaders := mutatedHeaders[key := value];
        removedHeaders := removedHeaders - {key};
      }
    }

    method RemoveHeader(key: string)
      modifies this
      ensures View() == Edited(old(View()), Edit.RemoveHeader(key))
    {
      if key in headers {
        headers := headers - {key};
        mutatedHeaders := mutatedHeaders - {key};
        removedHeaders := removedHeaders + {key};
      }
    }

    method SetBody(newBody: Body)
      modifies this
      ensures View() == Edited(old(View()), Edit.SetBody(newBody))
    {
      body, bodyMutated := newBody, true;
    }

    method SetBodyField(key: string, json: Json)
      modifies this
      ensures View() == Edited(old(View()), Edit.SetBodyField(key, json))
    {
      body, bodyMutated := body[key := json], true;
    }

    method RemoveBodyField(key: string)
      modifies this
      ensures View() == Edited(old(View()), Edit.RemoveBodyField(key))
    {
      if key in body {
        body, bodyMutated := body - {key}, true;
      }
    }

    /** The plugins' edits, in order. */
    method RunRequestPlugins(edits: seq<Edit>)
      modifies this
      ensures View() == EditedBy(old(View()), edits)
    {
      for i := 0 to |edits|
        invariant View() == EditedBy(old(View()), edits[..i])
      {
        assert edits[..i + 1][..i] == edits[..i];
        match edits[i] {
          case SetHeader(k, v) => SetHeader(k, v);
          case RemoveHeader(k) => RemoveHeader(k);
          case SetBody(b) => SetBody(b);
          case SetBodyField(k, json) => SetBodyField(k, json);
          case RemoveBodyField(k) => RemoveBodyField(k);
        }
      }
      assert edits[..|edits|] == edits;
    }

    method HandleRequestBody(streaming: bool, raw: Bytes, edits: seq<Edit>, pluginFails: bool,
                             parse: Bytes -> Option<Body>, marshal: Body -> Option<Bytes>)
      returns (r: Result<seq<Reply>, Failure>)
      requires View() == Received(headers, map[])
      modifies this
      ensures r == Handled(old(headers), streaming, raw, edits, pluginFails, parse, marshal)
    {
      var parsed := parse(raw);
      if parsed.None? {
        return Err(BadRequest);
      }
      body := parsed.value;
      RunRequestPlugins(edits);
      if pluginFails {
        return Err(PluginFailed);
      }
      var bytes := raw;
      if bodyMutated {
        var marshalled := marshal(body);
        if marshalled.None? {
          return Err(MarshalFailed);
        }
        bytes := marshalled.value;
        SetHeader(CONTENT_LENGTH, Itoa(|bytes|));
      } else if streaming {
        SetHeader(CONTENT_LENGTH, Itoa(|raw|));
      }
      if streaming {
        var ret := AddStreamedBodyResponse([HeadersReply(mutatedHeaders, removedHeaders)], bytes);
        return Ok(ret);
      }
      return Ok([WholeReply(mutatedHeaders, removedHeaders, if bodyMutated then Some(bytes) else None)]);
    }
  }

  method AddStreamedBodyResponse(responses: seq<Reply>, bytes: Bytes) returns (r: seq<Reply>)
    ensures r == responses + ChunkReplies(Chunks(bytes, true))
  {
    var chunks := BuildChunkedBodyResponses(bytes, true);
    r := responses;
    for i := 0 to |chunks|
      invariant r == responses + ChunkReplies(chunks[..i])
    {
      assert chunks[..i + 1][..i] == chunks[..i];
      r := r + [ChunkReply(chunks[i])];
    }
    assert chunks[..|chunks|] == chunks;
  }

  /** In streaming mode the replies are one header reply and then chunks; replaying the header reply in either order
      gives the headers that the edits leave with the total of the chunk bytes as content length, and the chunks are the
      bytes sent on. */
  lemma StreamedLength(headers: Headers, raw: Bytes, edits: seq<Edit>,
                       parse: Bytes -> Option<Body>, marshal: Body -> Option<Bytes>)
    requires Handled(headers, true, raw, edits, false, parse, marshal).Ok?
    ensures var replies := Handled(headers, true, raw, edits, false, parse, marshal).value;
            var final := EditedBy(Received(headers, parse(raw).value), edits);
            exists sets, removes, chunks ::
              && replies == [HeadersReply(sets, removes)] + ChunkReplies(chunks)
              && Some(Joined(chunks)) == (if final.bodyMutated then marshal(final.body) else Some(raw))
              && SetsThenRemoves(headers, sets, removes) == RemovesThenSets(headers, sets, removes)
              && SetsThenRemoves(headers, sets, removes) == final.headers["Content-Length" := Itoa(|Joined(chunks)|)]
  {
    var before := EditedBy(Received(headers, parse(raw).value), edits);
    LogReplays(headers, parse(raw).value, edits);
    var (m, bytes) := Sized(before, true, raw, marshal).value;
    EditKeepsLog(headers, before, SetHeader(CONTENT_LENGTH, Itoa(|bytes|)));
    ChunksFaithful(bytes, true);
    assert m.headers == before.headers[CONTENT_LENGTH := Itoa(|bytes|)];
    assert Handled(headers, true, raw, edits, false, parse, marshal).value
        == [HeadersReply(m.mutated, m.removed)] + ChunkReplies(Chunks(bytes, true));
  }
}
