// `Process` and the request context it mutates (pkg/epp/handlers/server.go), proved against
// the transitions of module Stream.
module StreamServer {
  import opened Wrappers
  import opened Chunking
  import opened ModelName
  import opened Director
  import opened Stream
  import opened StreamReference
  import opened StreamInvariant
  import opened StreamAccounts
  import opened StreamTheorems

  class RequestContext {
    var state: RequestState
    var body: Bytes
    var request: Request
    var streaming: bool
    var responseComplete: bool
    var requestRunning: bool
    var reqHeader: Option<Msg>
    var reqBody: seq<Msg>
    var respHeader: Option<Msg>
    var respBody: seq<Msg>
    var respTrailer: Option<Msg>

    // What the outside world sees.
    var sent: seq<Msg>
    var bodyCalls: seq<bool>
    var gaugeUp: nat
    var gaugeDown: nat

    /** The stream accepts this many messages and fails the next one; None never fails. */
    const failAt: Option<nat>

    function View(): Ctx
      reads this
    {
      Ctx(state, body, request, streaming, responseComplete, requestRunning, reqHeader, reqBody,
          respHeader, respBody, respTrailer, sent, bodyCalls, gaugeUp, gaugeDown)
    }

    constructor (failAt: Option<nat>)
      ensures View() == INITIAL && this.failAt == failAt
    {
      this.failAt := failAt;
      state, body, request := RequestReceived, [], Request([], 0, [], [], None, "");
      streaming, responseComplete, requestRunning := false, false, false;
      reqHeader, reqBody, respHeader, respBody, respTrailer := None, [], None, [], None;
      sent, bodyCalls, gaugeUp, gaugeDown := [], [], 0, 0;
    }

    /** srv.Send for each message in turn, stopping at the first failure. */
    method SendAll(msgs: seq<Msg>) returns (ok: bool)
      modifies this`sent
      ensures View() == Push(old(View()), msgs, failAt).ctx
      ensures ok <==> Push(old(View()), msgs, failAt).Live?
    {
      ok := true;
      var i := 0;
      while i < |msgs|
        invariant 0 <= i <= |msgs|
        invariant sent == old(sent) + msgs[..i]
        invariant failAt.None? || i == 0 || |sent| <= failAt.value
      {
        if failAt.Some? && |sent| >= failAt.value {
          assert msgs[..i] == if i == 0 then [] else msgs[..failAt.value - |old(sent)|];
          return false;
        }
        sent := sent + [msgs[i]];
        assert msgs[..i] + [msgs[i]] == msgs[..i + 1];
        i := i + 1;
      }
      assert msgs[..i] == msgs;
    }

    method UpdateStateAndSendIfNeeded() returns (ok: bool)
      modifies this
      ensures View() == Stream.UpdateStateAndSendIfNeeded(old(View()), failAt).ctx
      ensures ok <==> Stream.UpdateStateAndSendIfNeeded(old(View()), failAt).Live?
    {
      ok := SendRequestStages();
      if !ok { return; }
      ok := SendResponseStages();
    }

    method SendRequestHeaderStage() returns (ok: bool)
      modifies this
      ensures View() == SendRequestHeader(old(View()), failAt).ctx
      ensures ok <==> SendRequestHeader(old(View()), failAt).Live?
    {
      hide Push;
      if state == RequestReceived && reqHeader.Some? {
        ok := SendAll([reqHeader.value]);
        if !ok { return; }
        state := HeaderRequestResponseComplete;
      }
      ok := true;
    }

    method SendRequestBodyStage() returns (ok: bool)
      modifies this
      ensures View() == SendRequestBody(old(View()), failAt).ctx
      ensures ok <==> SendRequestBody(old(View()), failAt).Live?
    {
      hide Push;
      if state == HeaderRequestResponseComplete && |reqBody| > 0 {
        ok := SendAll(reqBody);
        if !ok { return; }
        state := BodyRequestResponsesComplete;
        gaugeUp := gaugeUp + 1;
        requestRunning := true;
        reqBody := [];
      }
      ok := true;
    }

    method SendRequestStages() returns (ok: bool)
      modifies this
      ensures var o := SendRequestHeader(old(View()), failAt);
              var p := if o.Over? then o else SendRequestBody(o.ctx, failAt);
              View() == p.ctx && (ok <==> p.Live?)
    {
      hide SendRequestHeader, SendRequestBody;
      ok := SendRequestHeaderStage();
      if !ok { return; }
      ok := SendRequestBodyStage();
    }

    method SendResponseStages() returns (ok: bool)
      modifies this
      ensures var o := SendResponseHeader(old(View()), failAt);
              var p := if o.Over? then o else SendResponseBody(o.ctx, failAt);
              var q := if p.Over? then p else SendResponseTrailer(p.ctx, failAt);
              View() == q.ctx && (ok <==> q.Live?)
    {
      hide Push;
      if state == ResponseReceived && respHeader.Some? {
        ok := SendAll([respHeader.value]);
        if !ok { return; }
        state := HeaderResponseResponseComplete;
      }
      ghost var mid := View();
      assert SendResponseHeader(old(View()), failAt) == Live(mid);
      if state == HeaderResponseResponseComplete {
        ok := SendAll(respBody);
        if !ok { return; }
        if responseComplete {
          state := BodyResponseResponsesComplete;
        }
        respBody := [];
      }
      assert SendResponseBody(mid, failAt) == Live(View());
      ok := true;
      if state == BodyResponseResponsesComplete && respTrailer.Some? {
        ok := SendAll([respTrailer.value]);
      }
    }

    method GenerateResponseBodyResponses(bytes: Bytes, setEos: bool) returns (responses: seq<Msg>)
      ensures responses == ResponseBodyMsgs(Chunks(bytes, setEos))
    {
      var chunks := BuildChunkedBodyResponses(bytes, setEos);
      responses := [];
      for i := 0 to |chunks|
        invariant responses == ResponseBodyMsgs(chunks)[..i]
      {
        responses := responses + [ResponseBodyReply(chunks[i])];
      }
    }

    method GenerateRequestBodyResponses(bytes: Bytes) returns (responses: seq<Msg>)
      ensures responses == RequestBodyMsgs(Chunks(bytes, true))
    {
      var chunks := BuildChunkedBodyResponses(bytes, true);
      responses := [];
      for i := 0 to |chunks|
        invariant responses == RequestBodyMsgs(chunks)[..i]
      {
        responses := responses + [RequestBodyReply(chunks[i])];
      }
    }

    method FinishResponse(setEos: bool)
      modifies this
      ensures View() == Stream.FinishResponse(old(View()), setEos)
    {
      if responseComplete { return; }
      responseComplete := true;
      bodyCalls := bodyCalls + [true];
      if !streaming {
        respBody := GenerateResponseBodyResponses(RewriteModelName(body, request.target, request.incoming), setEos);
      }
    }

    method HandleResponseHeaders(headers: seq<(string, string)>)
      modifies this
      ensures View() == Handle(old(View()), ResponseHeaders(headers)).0
    {
      for i := 0 to |headers|
        invariant View() == old(View()).(streaming := old(streaming) || AnnouncesEventStream(headers[..i]))
      {
        assert headers[..i + 1] == headers[..i] + [headers[i]];
        if headers[i].0 == "content-type" && Contains(headers[i].1, "text/event-stream") {
          streaming := true;
          assert headers[..i + 1][i] == headers[i];
        }
        AnnouncesSnoc(headers[..i], headers[i]);
      }
      assert headers[..|headers|] == headers;
      state := ResponseReceived;
      respHeader := Some(ResponseHeadersReply);
    }

    method HandleRequestBody(bytes: Bytes, eos: bool, verdict: Verdict) returns (err: Option<ErrorCode>)
      modifies this
      ensures (View(), err) == Handle(old(View()), RequestBody(bytes, eos, verdict))
    {
      hide HandleRequest, Chunks, RequestBodyMsgs;
      body := body + bytes;
      if !eos { return None; }
      request := request.(rawBody := body, size := |body|);
      body := [];
      var (r, code) := HandleRequest(request, verdict);
      request := r;
      if code.Some? { return code; }
      PrepareReplies(verdict.stream);
      return None;
    }

    method PrepareReplies(stream: bool)
      modifies this
      ensures View() == old(View()).(streaming := stream, reqHeader := Some(RequestHeaderMsg(old(request))),
                                     reqBody := RequestBodyMsgs(Chunks(old(request).rawBody, true)))
    {
      hide Chunks, RequestBodyMsgs;
      streaming := stream;
      reqHeader := Some(RequestHeaderMsg(request));
      reqBody := GenerateRequestBodyResponses(request.rawBody);
    }

    method HandleResponseBody(bytes: Bytes, eos: bool)
      modifies this
      ensures View() == Handle(old(View()), ResponseBody(bytes, eos)).0
    {
      hide RewriteModelName, Chunks;
      if streaming {
        if eos { responseComplete := true; }
        bodyCalls := bodyCalls + [eos];
        respBody := GenerateResponseBodyResponses(RewriteModelName(bytes, request.target, request.incoming), eos);
      } else {
        body := body + bytes;
        if eos { FinishResponse(true); }
      }
    }

    /** The switch of `Process`: the context after one message, and the error if it failed. */
    method HandleEvent(e: Event) returns (err: Option<ErrorCode>)
      modifies this
      ensures (View(), err) == Handle(old(View()), e)
    {
      hide RewriteModelName, Chunks, HandleRequest;
      err := None;
      match e
      case RequestHeaders(eos, rewriteHeader, endpoint) =>
        if eos {
          if endpoint.None? { return Some(Internal); }
          request := request.(endpoint := endpoint.value, size := 0);
          reqHeader := Some(RequestHeaderMsg(request));
        } else if rewriteHeader.Some? {
          request := request.(target := rewriteHeader.value);
        }
      case RequestBody(bytes, eos, verdict) =>
        err := HandleRequestBody(bytes, eos, verdict);
      case RequestTrailers =>
      case ResponseHeaders(headers) =>
        HandleResponseHeaders(headers);
      case ResponseBody(bytes, eos) =>
        HandleResponseBody(bytes, eos);
      case ResponseTrailers =>
        FinishResponse(false);
        respTrailer := Some(ResponseTrailersReply);
    }

    /** The receive loop, up to the end of the stream or the first return. */
    method Receive(events: seq<Event>) returns (reason: Option<Reason>)
      requires View() == INITIAL
      modifies this
      ensures View() == Run(events, failAt).ctx
      ensures reason.None? <==> Run(events, failAt).Live?
    {
      for i := 0 to |events|
        invariant Run(events[..i], failAt) == Live(View())
      {
        ghost var before := View();
        assert events[..i + 1][..i] == events[..i];
        assert Run(events[..i + 1], failAt) == Step(before, events[i], failAt);
        var err := HandleEvent(events[i]);
        var ok;
        if err.Some? {
          var reply := ErrorReply(err.value);
          ok := SendAll(reply);
          OverAbsorbs(events, i + 1, failAt);
          return Some(if ok then Replied(err.value) else SendFailed);
        }
        ok := UpdateStateAndSendIfNeeded();
        if !ok {
          OverAbsorbs(events, i + 1, failAt);
          return Some(SendFailed);
        }
      }
      assert events[..|events|] == events;
      return None;
    }

    /** One whole stream: the log keeps the protocol's order, a scheduled request is completed exactly once,
        and the running-request gauge returns to where it was. */
    method Process(events: seq<Event>) returns (reason: Option<Reason>)
      requires View() == INITIAL
      modifies this
      ensures View() == Close(Run(events, failAt).ctx)
      ensures gaugeUp == gaugeDown == if EndSent(sent) then 1 else 0
      ensures WellFormed(events) ==> InOrder(sent) && sent == Truncate(Reference(events), failAt)
      ensures WellFormed(events) && request.pod.Some? ==> TrueCount(bodyCalls) == 1
    {
      hide Run, Reference, WellFormed, InOrder, Truncate, EndSent;
      reason := Receive(events);
      ghost var c := View();
      if requestRunning {
        gaugeDown := gaugeDown + 1;
      }
      if request.pod.Some? && !responseComplete {
        bodyCalls := bodyCalls + [true];
      }
      assert View() == Close(c);
      GaugeBalanced(events, failAt);
      if WellFormed(events) {
        SentIsReference(events, failAt);
        SentInOrder(events, failAt);
        CompletedExactlyOnce(events, failAt);
      }
    }
  }

  lemma AnnouncesSnoc(headers: seq<(string, string)>, h: (string, string))
    ensures AnnouncesEventStream(headers + [h])
       <==> AnnouncesEventStream(headers) || (h.0 == "content-type" && Contains(h.1, "text/event-stream"))
  {
    var all := headers + [h];
    assert all[|headers|] == h;
    if AnnouncesEventStream(headers) {
      var i :| 0 <= i < |headers| && headers[i].0 == "content-type" && Contains(headers[i].1, "text/event-stream");
      assert all[i] == headers[i];
    }
  }

  /** Once a run has returned, later messages are not read. */
  lemma {:induction false} OverAbsorbs(events: seq<Event>, n: nat, failAt: Option<nat>)
    requires n <= |events| && Run(events[..n], failAt).Over?
    ensures Run(events, failAt) == Run(events[..n], failAt)
    decreases |events| - n
  {
    if n == |events| {
      assert events[..n] == events;
    } else {
      assert events[..n + 1][..n] == events[..n];
      OverAbsorbs(events, n + 1, failAt);
    }
  }
}
