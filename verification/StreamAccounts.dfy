// The running-request gauge over every ext-proc run, well-formed or not.
module StreamAccounts {
  import opened Wrappers
  import opened Chunking
  import opened Director
  import opened Stream
  import opened StreamReference

  /** The message that ends the request's body. */
  predicate IsEnd(m: Msg) { m.RequestBodyReply? && m.chunk.eos }

  predicate EndSent(log: seq<Msg>) { exists i :: 0 <= i < |log| && IsEnd(log[i]) }

  /** Of what is prepared, only the request body's last message ends it. */
  predicate Prepared(c: Ctx) {
    && EndsOnce(c.reqBody) && !EndSent(c.respBody)
    && (c.reqHeader.Some? ==> !IsEnd(c.reqHeader.value)) && (c.respHeader.Some? ==> !IsEnd(c.respHeader.value))
    && (c.respTrailer.Some? ==> !IsEnd(c.respTrailer.value))
  }

  predicate GaugeInv(c: Ctx) {
    && c.gaugeUp == (if c.requestRunning then 1 else 0) && c.gaugeDown == 0
    && (c.requestRunning ==> c.state != RequestReceived && c.state != HeaderRequestResponseComplete)
    && (c.requestRunning <==> EndSent(c.sent))
    && Prepared(c)
  }

  lemma EndSentConcat(a: seq<Msg>, b: seq<Msg>)
    ensures EndSent(a + b) <==> EndSent(a) || EndSent(b)
  {
    assert forall i :: 0 <= i < |a| ==> (a + b)[i] == a[i];
    assert forall i :: 0 <= i < |b| ==> (a + b)[|a| + i] == b[i];
  }

  /** Sending changes the log only, and a cut-off body has no end. */
  lemma PushEnds(c: Ctx, msgs: seq<Msg>, failAt: Option<nat>)
    ensures var o := Push(c, msgs, failAt);
            && o.ctx == c.(sent := o.ctx.sent)
            && (o.Live? ==> (EndSent(o.ctx.sent) <==> EndSent(c.sent) || EndSent(msgs)))
            && (o.Over? && (forall i :: 0 <= i < |msgs| - 1 ==> !IsEnd(msgs[i])) ==>
                  (EndSent(o.ctx.sent) <==> EndSent(c.sent)))
  {
    var o := Push(c, msgs, failAt);
    if o.Live? {
      EndSentConcat(c.sent, msgs);
    } else if failAt.value > |c.sent| {
      EndSentConcat(c.sent, msgs[..failAt.value - |c.sent|]);
    }
  }

  lemma NoEndIn(m: Msg)
    requires !IsEnd(m)
    ensures !EndSent([m])
  {
  }

  /** Handling a message leaves the books and the log alone, and goes back to no request state. */
  lemma HandleKeepsBooks(c: Ctx, e: Event)
    ensures var d := Handle(c, e).0;
            && d.gaugeUp == c.gaugeUp && d.gaugeDown == c.gaugeDown && d.requestRunning == c.requestRunning
            && d.sent == c.sent && (d.state == c.state || d.state == ResponseReceived)
  {
    hide HandleRequest, Chunks, AnnouncesEventStream, Renamed;
  }

  lemma HandlePrepares(c: Ctx, e: Event)
    requires Prepared(c)
    ensures Prepared(Handle(c, e).0)
  {
    hide HandleRequest, Chunks, EndSent, AnnouncesEventStream, Renamed, RequestBodyMsgs, ResponseBodyMsgs, Ended;
    match e {
      case RequestBody(bytes, eos, verdict) =>
        var whole := c.body + bytes;
        BodyEndsOnce(HandleRequest(c.request.(rawBody := whole, size := |whole|), verdict).0.rawBody);
      case ResponseBody(bytes, eos) =>
        ResponseHasNoEnd(Chunks(Renamed(c, bytes), eos));
        FinishPrepares(c.(body := c.body + bytes), true);
      case ResponseTrailers => FinishPrepares(c, false);
      case _ =>
    }
  }

  lemma FinishPrepares(c: Ctx, setEos: bool)
    requires Prepared(c)
    ensures Prepared(FinishResponse(c, setEos))
  {
    hide Chunks, EndSent, Renamed, ResponseBodyMsgs;
    var d := c.(responseComplete := true, bodyCalls := c.bodyCalls + [true]);
    ResponseHasNoEnd(Chunks(Renamed(d, d.body), setEos));
  }

  lemma HandleKeepsGauge(c: Ctx, e: Event)
    requires GaugeInv(c)
    ensures GaugeInv(Handle(c, e).0)
  {
    hide Handle, Prepared, EndSent;
    HandleKeepsBooks(c, e);
    HandlePrepares(c, e);
  }

  predicate EndsOnce(msgs: seq<Msg>) { forall i :: 0 <= i < |msgs| ==> (IsEnd(msgs[i]) <==> i == |msgs| - 1) }

  lemma BodyEndsOnce(body: Bytes)
    ensures EndsOnce(RequestBodyMsgs(Chunks(body, true)))
  {
    ChunksFaithful(body, true);
    hide Chunks;
  }

  lemma ResponseHasNoEnd(cs: seq<Chunk>)
    ensures !EndSent(ResponseBodyMsgs(cs))
  {
  }

  lemma RequestHeaderKeepsGauge(c: Ctx, failAt: Option<nat>)
    requires GaugeInv(c)
    ensures GaugeInv(SendRequestHeader(c, failAt).ctx)
  {
    hide Push, EndSent;
    if c.reqHeader.Some? {
      PushEnds(c, [c.reqHeader.value], failAt);
      NoEndIn(c.reqHeader.value);
    }
  }

  lemma RequestBodyKeepsGauge(c: Ctx, failAt: Option<nat>)
    requires GaugeInv(c)
    ensures GaugeInv(SendRequestBody(c, failAt).ctx)
  {
    hide Push;
    PushEnds(c, c.reqBody, failAt);
    if c.reqBody != [] {
      assert IsEnd(c.reqBody[|c.reqBody| - 1]);
    }
  }

  lemma ResponseHeaderKeepsGauge(c: Ctx, failAt: Option<nat>)
    requires GaugeInv(c)
    ensures GaugeInv(SendResponseHeader(c, failAt).ctx)
  {
    hide Push, EndSent;
    if c.respHeader.Some? {
      PushEnds(c, [c.respHeader.value], failAt);
      NoEndIn(c.respHeader.value);
    }
  }

  lemma ResponseBodyKeepsGauge(c: Ctx, failAt: Option<nat>)
    requires GaugeInv(c)
    ensures GaugeInv(SendResponseBody(c, failAt).ctx)
  {
    hide Push;
    PushEnds(c, c.respBody, failAt);
  }

  lemma ResponseTrailerKeepsGauge(c: Ctx, failAt: Option<nat>)
    requires GaugeInv(c)
    ensures GaugeInv(SendResponseTrailer(c, failAt).ctx)
  {
    hide Push, EndSent;
    if c.respTrailer.Some? {
      PushEnds(c, [c.respTrailer.value], failAt);
      NoEndIn(c.respTrailer.value);
    }
  }

  lemma SendKeepsGauge(c: Ctx, failAt: Option<nat>)
    requires GaugeInv(c)
    ensures GaugeInv(UpdateStateAndSendIfNeeded(c, failAt).ctx)
  {
    hide SendRequestHeader, SendRequestBody, SendResponseHeader, SendResponseBody, SendResponseTrailer, GaugeInv;
    RequestHeaderKeepsGauge(c, failAt);
    var d := SendRequestHeader(c, failAt).ctx;
    RequestBodyKeepsGauge(d, failAt);
    var e := SendRequestBody(d, failAt).ctx;
    ResponseHeaderKeepsGauge(e, failAt);
    var f := SendResponseHeader(e, failAt).ctx;
    ResponseBodyKeepsGauge(f, failAt);
    ResponseTrailerKeepsGauge(SendResponseBody(f, failAt).ctx, failAt);
  }

  lemma ErrorKeepsGauge(c: Ctx, code: ErrorCode, failAt: Option<nat>)
    requires GaugeInv(c)
    ensures GaugeInv(Push(c, ErrorReply(code), failAt).ctx)
  {
    PushEnds(c, ErrorReply(code), failAt);
    hide Push;
  }

  lemma {:induction false} GaugeInvHolds(events: seq<Event>, failAt: Option<nat>)
    ensures GaugeInv(Run(events, failAt).ctx)
    decreases |events|
  {
    hide GaugeInv, UpdateStateAndSendIfNeeded, Handle, Push, ErrorReply;
    if events == [] {
      GaugeAtFirst();
    } else {
      GaugeInvHolds(Front(events), failAt);
      var o := Run(Front(events), failAt);
      HandleKeepsGauge(o.ctx, Last(events));
      var (d, err) := Handle(o.ctx, Last(events));
      SendKeepsGauge(d, failAt);
      if err.Some? {
        ErrorKeepsGauge(d, err.value, failAt);
      }
    }
  }

  lemma GaugeAtFirst()
    ensures GaugeInv(INITIAL)
  {
  }

  /** Every run, well-formed or not, counts a request as running exactly when the end of its body was sent, once, and
      takes it off the gauge again. */
  lemma GaugeBalanced(events: seq<Event>, failAt: Option<nat>)
    ensures var c := Close(Run(events, failAt).ctx); c.gaugeUp == c.gaugeDown == if EndSent(c.sent) then 1 else 0
  {
    hide Run, Prepared, EndSent;
    GaugeInvHolds(events, failAt);
  }
}
