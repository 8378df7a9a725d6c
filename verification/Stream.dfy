// The ext-proc stream of one HTTP request (pkg/epp/handlers/server.go), as transitions on values.
//
// One run of `Process` is a sequence of received events plus the point, if any, at which a
// send fails. `Run` executes the code's transitions; `Reference` says from the events alone
// what must have been sent.
module Stream {
  import opened Wrappers
  import opened Chunking
  import opened ModelName
  import opened Director

  datatype Msg =
    | RequestHeadersReply(endpoint: string, contentLength: Option<nat>)
    | RequestBodyReply(chunk: Chunk)
    | ResponseHeadersReply
    | ResponseBodyReply(chunk: Chunk)
    | ResponseTrailersReply
    | ImmediateReply(status: nat)

  /** A message from Envoy together with the answers the handler obtains while processing it. */
  datatype Event =
    | RequestHeaders(endOfStream: bool, rewriteHeader: Option<Bytes>, randomEndpoint: Option<string>)
    | RequestBody(bytes: Bytes, endOfStream: bool, verdict: Verdict)
    | RequestTrailers
    | ResponseHeaders(headers: seq<(string, string)>)
    | ResponseBody(bytes: Bytes, endOfStream: bool)
    | ResponseTrailers

  datatype RequestState =
    | RequestReceived | HeaderRequestResponseComplete | BodyRequestResponsesComplete
    | TrailerRequestResponsesComplete | ResponseReceived | HeaderResponseResponseComplete
    | BodyResponseResponsesComplete | TrailerResponseResponsesComplete

  /** The request context, the stream's sent messages, and the ledger of outside effects. */
  datatype Ctx = Ctx(
    state: RequestState,
    body: Bytes,                // the accumulation buffer, shared by request and response
    request: Request,
    streaming: bool,            // modelServerStreaming
    responseComplete: bool,
    requestRunning: bool,
    reqHeader: Option<Msg>,
    reqBody: seq<Msg>,
    respHeader: Option<Msg>,
    respBody: seq<Msg>,
    respTrailer: Option<Msg>,
    sent: seq<Msg>,
    bodyCalls: seq<bool>,       // the endOfStream flag of each director.HandleResponseBody call
    gaugeUp: nat,               // metrics.IncRunningRequests calls
    gaugeDown: nat)             // metrics.DecRunningRequests calls

  const INITIAL := Ctx(RequestReceived, [], Request([], 0, [], [], None, ""), false, false, false,
                       None, [], None, [], None, [], [], 0, 0)

  datatype Reason = SendFailed | Replied(code: ErrorCode)

  datatype Outcome = Live(ctx: Ctx) | Over(ctx: Ctx, reason: Reason)

  // ---- Sending ----

  /** Sends `msgs` in order; the send that would make the log longer than `failAt` fails. */
  function Push(c: Ctx, msgs: seq<Msg>, failAt: Option<nat>): Outcome {
    if failAt.None? || msgs == [] || |c.sent| + |msgs| <= failAt.value then Live(c.(sent := c.sent + msgs))
    else if failAt.value <= |c.sent| then Over(c, SendFailed)
    else Over(c.(sent := c.sent + msgs[..failAt.value - |c.sent|]), SendFailed)
  }

  function SendRequestHeader(c: Ctx, failAt: Option<nat>): Outcome {
    if c.state == RequestReceived && c.reqHeader.Some? then
      match Push(c, [c.reqHeader.value], failAt)
      case Live(d) => Live(d.(state := HeaderRequestResponseComplete))
      case Over(d, r) => Over(d, r)
    else Live(c)
  }

  function SendRequestBody(c: Ctx, failAt: Option<nat>): Outcome {
    if c.state == HeaderRequestResponseComplete && |c.reqBody| > 0 then
      match Push(c, c.reqBody, failAt)
      case Live(d) => Live(d.(state := BodyRequestResponsesComplete, gaugeUp := d.gaugeUp + 1,
                              requestRunning := true, reqBody := []))
      case Over(d, r) => Over(d, r)
    else Live(c)
  }

  function SendResponseHeader(c: Ctx, failAt: Option<nat>): Outcome {
    if c.state == ResponseReceived && c.respHeader.Some? then
      match Push(c, [c.respHeader.value], failAt)
      case Live(d) => Live(d.(state := HeaderResponseResponseComplete))
      case Over(d, r) => Over(d, r)
    else Live(c)
  }

  function SendResponseBody(c: Ctx, failAt: Option<nat>): Outcome {
    if c.state == HeaderResponseResponseComplete then
      match Push(c, c.respBody, failAt)
      case Live(d) => Live(d.(state := if d.responseComplete then BodyResponseResponsesComplete else d.state,
                              respBody := []))
      case Over(d, r) => Over(d, r)
    else Live(c)
  }

  function SendResponseTrailer(c: Ctx, failAt: Option<nat>): Outcome {
    if c.state == BodyResponseResponsesComplete && c.respTrailer.Some? then
      Push(c, [c.respTrailer.value], failAt)
    else Live(c)
  }

  function UpdateStateAndSendIfNeeded(c: Ctx, failAt: Option<nat>): Outcome {
    var o1 := SendRequestHeader(c, failAt);
    if o1.Over? then o1 else
    var o2 := SendRequestBody(o1.ctx, failAt);
    if o2.Over? then o2 else
    var o3 := SendResponseHeader(o2.ctx, failAt);
    if o3.Over? then o3 else
    var o4 := SendResponseBody(o3.ctx, failAt);
    if o4.Over? then o4 else
    SendResponseTrailer(o4.ctx, failAt)
  }

  // ---- Handling one event ----

  function RequestBodyMsgs(chunks: seq<Chunk>): (r: seq<Msg>)
    ensures |r| == |chunks|
  {
    seq(|chunks|, i requires 0 <= i < |chunks| => RequestBodyReply(chunks[i]))
  }

  function ResponseBodyMsgs(chunks: seq<Chunk>): (r: seq<Msg>)
    ensures |r| == |chunks|
  {
    seq(|chunks|, i requires 0 <= i < |chunks| => ResponseBodyReply(chunks[i]))
  }

  function RequestHeaderMsg(r: Request): Msg {
    RequestHeadersReply(r.endpoint, if r.size > 0 then Some(r.size) else None)
  }

  /** `sub` occurs in `s`, as strings.Contains decides it. */
  predicate Contains(s: string, sub: string) {
    exists i :: 0 <= i <= |s| && sub <= s[i..]
  }

  predicate AnnouncesEventStream(headers: seq<(string, string)>) {
    exists i :: 0 <= i < |headers| && headers[i].0 == "content-type" && Contains(headers[i].1, "text/event-stream")
  }

  function Renamed(c: Ctx, bytes: Bytes): Bytes {
    RewriteModelName(bytes, c.request.target, c.request.incoming)
  }

  function FinishResponse(c: Ctx, setEos: bool): Ctx {
    if c.responseComplete then c
    else
      var d := c.(responseComplete := true, bodyCalls := c.bodyCalls + [true]);
      if c.streaming then d else d.(respBody := ResponseBodyMsgs(Chunks(Renamed(d, d.body), setEos)))
  }

  function Handle(c: Ctx, e: Event): (Ctx, Option<ErrorCode>) {
    match e
    case RequestHeaders(eos, rewriteHeader, endpoint) =>
      if eos then
        if endpoint.None? then (c, Some(Internal))
        else
          var r := c.request.(endpoint := endpoint.value, size := 0);
          (c.(request := r, reqHeader := Some(RequestHeaderMsg(r))), None)
      else if rewriteHeader.Some? then (c.(request := c.request.(target := rewriteHeader.value)), None)
      else (c, None)
    case RequestBody(bytes, eos, verdict) =>
      var whole := c.body + bytes;
      if !eos then (c.(body := whole), None)
      else
        var (r, err) := HandleRequest(c.request.(rawBody := whole, size := |whole|), verdict);
        if err.Some? then (c.(body := [], request := r), err)
        else (c.(body := [], request := r, streaming := verdict.stream,
                 reqHeader := Some(RequestHeaderMsg(r)),
                 reqBody := RequestBodyMsgs(Chunks(r.rawBody, true))), None)
    case RequestTrailers => (c, None)
    case ResponseHeaders(headers) =>
      (c.(streaming := c.streaming || AnnouncesEventStream(headers), state := ResponseReceived,
          respHeader := Some(ResponseHeadersReply)), None)
    case ResponseBody(bytes, eos) =>
      if c.streaming then
        (c.(responseComplete := c.responseComplete || eos, bodyCalls := c.bodyCalls + [eos],
            respBody := ResponseBodyMsgs(Chunks(Renamed(c, bytes), eos))), None)
      else
        var d := c.(body := c.body + bytes);
        (if eos then FinishResponse(d, true) else d, None)
    case ResponseTrailers =>
      (FinishResponse(c, false).(respTrailer := Some(ResponseTrailersReply)), None)
  }

  /** The immediate reply, if the error maps to one. */
  function ErrorReply(code: ErrorCode): seq<Msg> {
    if HttpStatus(code).Some? then [ImmediateReply(HttpStatus(code).value)] else []
  }

  function Step(c: Ctx, e: Event, failAt: Option<nat>): Outcome {
    var (d, err) := Handle(c, e);
    if err.Some? then
      match Push(d, ErrorReply(err.value), failAt)
      case Live(s) => Over(s, Replied(err.value))
      case Over(s, r) => Over(s, r)
    else UpdateStateAndSendIfNeeded(d, failAt)
  }

  function Run(events: seq<Event>, failAt: Option<nat>): Outcome {
    if events == [] then Live(INITIAL)
    else
      match Run(events[..|events| - 1], failAt)
      case Live(c) => Step(c, events[|events| - 1], failAt)
      case Over(c, r) => Over(c, r)
  }

  /** The deferred function of `Process`, which runs however the stream ends. */
  function Close(c: Ctx): Ctx {
    var d := if c.requestRunning then c.(gaugeDown := c.gaugeDown + 1) else c;
    if d.request.pod.Some? && !d.responseComplete then d.(bodyCalls := d.bodyCalls + [true]) else d
  }
}
