// The state that the code of `Process` keeps after every event of a well-formed run.
module StreamInvariant {
  import opened Wrappers
  import opened Sequences
  import opened Chunking
  import opened ModelName
  import opened Director
  import opened Stream
  import opened StreamReference

  function TrueCount(flags: seq<bool>): nat {
    if flags == [] then 0 else TrueCount(flags[..|flags| - 1]) + if flags[|flags| - 1] then 1 else 0
  }

  predicate Fits(n: nat, failAt: Option<nat>) {
    failAt.None? || n <= failAt.value
  }

  predicate Completions(c: Ctx) {
    TrueCount(c.bodyCalls) == if c.responseComplete then 1 else 0
  }

  predicate PhaseInv(events: seq<Event>, c: Ctx) {
    var d := DecisionOf(events);
    match PhaseOf(events)
    case Malformed => false
    case Fresh => c == INITIAL && d.Undecided?
    case InRequest =>
      && d.Undecided? && c.state == RequestReceived && c.reqHeader.None? && !c.streaming
      && c.body == RequestBytes(events) && c.request == Request([], 0, [], HeaderTarget(events), None, "")
      && !c.responseComplete && c.respTrailer.None?
      && Pieces(events) == [] && !HasResponse(events) && !HasTrailers(events) && !SaysEventStream(events)
    case RequestDone =>
      && Decided(d) && c.request == d.request && c.body == []
      && (c.state == HeaderRequestResponseComplete || c.state == BodyRequestResponsesComplete)
      && c.streaming == IsStreamed(events)
      && !c.responseComplete && c.respTrailer.None?
      && Pieces(events) == [] && !HasResponse(events) && !HasTrailers(events) && !SaysEventStream(events)
    case InResponse =>
      && Decided(d) && c.request == d.request
      && c.state == HeaderResponseResponseComplete && c.streaming == IsStreamed(events)
      && (c.streaming || c.body == Joined(Pieces(events)))
      && !c.responseComplete && c.respTrailer.None? && HasResponse(events) && !HasTrailers(events)
      && !Ended(Pieces(events))
    case ResponseDone =>
      && Decided(d) && c.request == d.request
      && c.state == BodyResponseResponsesComplete && c.streaming == IsStreamed(events)
      && c.responseComplete && c.respTrailer.None? && HasResponse(events) && !HasTrailers(events)
      && Ended(Pieces(events))
    case Closed =>
      Decided(d) && c.request == d.request && c.responseComplete
  }

  predicate LiveInv(events: seq<Event>, c: Ctx, failAt: Option<nat>) {
    && PhaseInv(events, c)
    && c.sent == Reference(events) && Fits(|c.sent|, failAt)
    && c.reqBody == [] && c.respBody == []
    && Completions(c)
    && (c.request.pod.Some? <==> DecisionOf(events).Scheduled?)
  }

  predicate OverInv(events: seq<Event>, c: Ctx, failAt: Option<nat>) {
    && WellFormed(events)
    && c.sent == Truncate(Reference(events), failAt)
    && Completions(c)
    && (c.request.pod.Some? <==> DecisionOf(events).Scheduled?)
    && !DecisionOf(events).Undecided?
    && (DecisionOf(events).Refused? || (failAt.Some? && |Reference(events)| > failAt.value))
  }

  predicate OutcomeInv(events: seq<Event>, o: Outcome, failAt: Option<nat>) {
    match o
    case Live(c) => LiveInv(events, c, failAt)
    case Over(c, _) => OverInv(events, c, failAt)
  }

  lemma TrueCountSnoc(flags: seq<bool>, b: bool)
    ensures TrueCount(flags + [b]) == TrueCount(flags) + if b then 1 else 0
  {
    assert (flags + [b])[..|flags|] == flags;
  }

  // ---- What one pass of updateStateAndSendIfNeeded does in each phase ----

  /** `o` is the result of sending `msgs` from `c`: `after` if all went out, else a cut-off log and untouched books. */
  predicate Delivers(o: Outcome, c: Ctx, msgs: seq<Msg>, failAt: Option<nat>, after: Ctx) {
    if Fits(|c.sent| + |msgs|, failAt) then o == Live(after.(sent := c.sent + msgs))
    else
      && o.Over? && o.ctx.sent == (c.sent + msgs)[..failAt.value]
      && o.ctx.request == c.request && o.ctx.bodyCalls == c.bodyCalls && o.ctx.responseComplete == c.responseComplete
  }

  predicate QuietResponse(c: Ctx) {
    c.respTrailer.None? && c.respBody == [] && !c.responseComplete
  }

  function AfterRequest(c: Ctx): Ctx {
    if c.reqBody == [] then c.(state := HeaderRequestResponseComplete)
    else c.(state := BodyRequestResponsesComplete, gaugeUp := c.gaugeUp + 1, requestRunning := true, reqBody := [])
  }

  lemma ResponseStagesIdle(c: Ctx, failAt: Option<nat>)
    requires c.state == HeaderRequestResponseComplete || c.state == BodyRequestResponsesComplete
    ensures SendResponseHeader(c, failAt) == Live(c) && SendResponseBody(c, failAt) == Live(c)
    ensures SendResponseTrailer(c, failAt) == Live(c)
  {
  }

  lemma SendsRequestParts(c: Ctx, failAt: Option<nat>)
    requires c.state == RequestReceived && c.reqHeader.Some? && Fits(|c.sent|, failAt)
    ensures var o1 := SendRequestHeader(c, failAt);
            var o2 := if o1.Over? then o1 else SendRequestBody(o1.ctx, failAt);
            Delivers(o2, c, [c.reqHeader.value] + c.reqBody, failAt, AfterRequest(c))
  {
    var o1 := SendRequestHeader(c, failAt);
    if o1.Live? {
      ConcatAssoc(c.sent, [c.reqHeader.value], c.reqBody);
      assert o1.ctx == c.(sent := c.sent + [c.reqHeader.value], state := HeaderRequestResponseComplete);
    }
  }

  lemma SendsRequest(c: Ctx, failAt: Option<nat>)
    requires c.state == RequestReceived && c.reqHeader.Some? && Fits(|c.sent|, failAt)
    ensures Delivers(UpdateStateAndSendIfNeeded(c, failAt), c, [c.reqHeader.value] + c.reqBody, failAt, AfterRequest(c))
  {
    SendsRequestParts(c, failAt);
    var o1 := SendRequestHeader(c, failAt);
    var o2 := if o1.Over? then o1 else SendRequestBody(o1.ctx, failAt);
    if o2.Live? {
      ResponseStagesIdle(o2.ctx, failAt);
    }
    hide SendRequestHeader, SendRequestBody, SendResponseHeader, SendResponseBody, SendResponseTrailer;
  }

  lemma SendsNothing(c: Ctx, failAt: Option<nat>)
    requires QuietResponse(c) && c.reqBody == [] && Fits(|c.sent|, failAt)
    requires
      || (c.state == RequestReceived && c.reqHeader.None?)
      || c.state == HeaderRequestResponseComplete || c.state == BodyRequestResponsesComplete
    ensures UpdateStateAndSendIfNeeded(c, failAt) == Live(c)
  {
  }

  lemma SendsResponseHeader(c: Ctx, failAt: Option<nat>)
    requires c.state == ResponseReceived && c.respHeader.Some? && QuietResponse(c) && Fits(|c.sent|, failAt)
    ensures Delivers(UpdateStateAndSendIfNeeded(c, failAt), c, [c.respHeader.value], failAt,
                     c.(state := HeaderResponseResponseComplete))
  {
    assert c.sent + [c.respHeader.value] + [] == c.sent + [c.respHeader.value];
  }

  lemma RequestStagesIdle(c: Ctx, failAt: Option<nat>)
    requires c.state == HeaderResponseResponseComplete
    ensures SendRequestHeader(c, failAt) == Live(c) && SendRequestBody(c, failAt) == Live(c)
    ensures SendResponseHeader(c, failAt) == Live(c)
  {
  }

  /** What sending comes to, from a log that has not failed yet. */
  function Pushed(c: Ctx, msgs: seq<Msg>, failAt: Option<nat>): Outcome
    requires Fits(|c.sent|, failAt)
  {
    if Fits(|c.sent| + |msgs|, failAt) then Live(c.(sent := c.sent + msgs))
    else Over(c.(sent := (c.sent + msgs)[..failAt.value]), SendFailed)
  }

  lemma PushIsPushed(c: Ctx, msgs: seq<Msg>, failAt: Option<nat>)
    requires Fits(|c.sent|, failAt)
    ensures Push(c, msgs, failAt) == Pushed(c, msgs, failAt)
  {
    if failAt.Some? && |c.sent| + |msgs| > failAt.value {
      assert (c.sent + msgs)[..failAt.value] == c.sent + msgs[..failAt.value - |c.sent|];
    }
  }

  /** Sending twice in a row is sending both. */
  lemma PushedTwice(c: Ctx, first: seq<Msg>, m: Msg, failAt: Option<nat>)
    requires Fits(|c.sent|, failAt)
    ensures var o := Pushed(c, first, failAt);
            && (o.Over? ==> Pushed(c, first + [m], failAt) == o)
            && (o.Live? ==> Pushed(c, first + [m], failAt) == Pushed(o.ctx, [m], failAt))
  {
    ConcatAssoc(c.sent, first, [m]);
    if failAt.Some? && |c.sent| + |first| > failAt.value {
      assert ((c.sent + first) + [m])[..failAt.value] == (c.sent + first)[..failAt.value];
    }
  }

  lemma SendsResponseParts(c: Ctx, failAt: Option<nat>)
    requires c.state == HeaderResponseResponseComplete && Fits(|c.sent|, failAt)
    requires c.respTrailer.Some? ==> c.responseComplete
    ensures var tail := if c.respTrailer.Some? then [c.respTrailer.value] else [];
            var o4 := SendResponseBody(c, failAt);
            var o5 := if o4.Over? then o4 else SendResponseTrailer(o4.ctx, failAt);
            Delivers(o5, c, c.respBody + tail, failAt,
                     c.(state := if c.responseComplete then BodyResponseResponsesComplete else c.state, respBody := []))
  {
    hide Push;
    PushIsPushed(c, c.respBody, failAt);
    if c.respTrailer.Some? {
      PushedTwice(c, c.respBody, c.respTrailer.value, failAt);
      var o4 := SendResponseBody(c, failAt);
      if o4.Live? {
        PushIsPushed(o4.ctx, [c.respTrailer.value], failAt);
      }
    } else {
      assert c.respBody + [] == c.respBody;
    }
  }

  lemma SendsResponseBody(c: Ctx, failAt: Option<nat>)
    requires c.state == HeaderResponseResponseComplete && Fits(|c.sent|, failAt)
    requires c.respTrailer.Some? ==> c.responseComplete
    ensures var tail := if c.respTrailer.Some? then [c.respTrailer.value] else [];
            Delivers(UpdateStateAndSendIfNeeded(c, failAt), c, c.respBody + tail, failAt,
                     c.(state := if c.responseComplete then BodyResponseResponsesComplete else c.state, respBody := []))
  {
    hide SendRequestHeader, SendRequestBody, SendResponseHeader, SendResponseBody, SendResponseTrailer, Delivers;
    RequestStagesIdle(c, failAt);
    SendsResponseParts(c, failAt);
  }

  lemma SendsTrailer(c: Ctx, failAt: Option<nat>)
    requires c.state == BodyResponseResponsesComplete && c.respTrailer.Some? && Fits(|c.sent|, failAt)
    ensures Delivers(UpdateStateAndSendIfNeeded(c, failAt), c, [c.respTrailer.value], failAt, c)
  {
  }

  // ---- Every step keeps the invariant ----

  /** Sending what the reference adds re-establishes the invariant, or ends the run within it. */
  lemma DeliveryKeepsInv(events: seq<Event>, o: Outcome, d: Ctx, msgs: seq<Msg>, failAt: Option<nat>, after: Ctx)
    requires Delivers(o, d, msgs, failAt, after) && Reference(events) == d.sent + msgs
    requires WellFormed(events) && Decided(DecisionOf(events))
    requires PhaseInv(events, after.(sent := d.sent + msgs)) && after.reqBody == [] && after.respBody == []
    requires after.request == d.request && after.bodyCalls == d.bodyCalls
             && after.responseComplete == d.responseComplete
    requires Completions(d) && d.request == DecisionOf(events).request
    ensures OutcomeInv(events, o, failAt)
  {
    hide Reference, DecisionOf, PhaseInv, PhaseOf, TrueCount;
  }

  lemma RequestHeadersStep(events: seq<Event>, e: Event, c: Ctx, failAt: Option<nat>)
    requires LiveInv(events, c, failAt) && e.RequestHeaders? && WellFormed(events + [e])
    ensures OutcomeInv(events + [e], Step(c, e, failAt), failAt)
  {
    Snoc(events, e);
    assert PhaseOf(events) == Fresh;
    PhaseFreshIsEmpty(events);
    ReferenceAtDecision(events, e);
    assert Pieces(events) == [] && !HasTrailers(events) && !SaysEventStream(events) && !HasResponse(events);
    assert Pieces(events + [e]) == [] && !HasTrailers(events + [e]) && !SaysEventStream(events + [e]);
    var (d, err) := Handle(c, e);
    if err.None? {
      if e.endOfStream {
        SendsRequest(d, failAt);
        hide UpdateStateAndSendIfNeeded, Delivers;
        var msgs := [d.reqHeader.value] + d.reqBody;
        assert PhaseInv(events + [e], AfterRequest(d).(sent := d.sent + msgs));
        DeliveryKeepsInv(events + [e], Step(c, e, failAt), d, msgs, failAt, AfterRequest(d));
        hide OutcomeInv;
      } else {
        assert RequestBytes(events) == [] && HeaderTarget(events) == [] && DecisionOf(events).Undecided?;
        assert RequestBytes(events + [e]) == [] && !HasResponse(events + [e]);
        assert DecisionOf(events + [e]).Undecided? && HeaderTarget(events + [e]) == d.request.target;
        SendsNothing(d, failAt);
      }
    }
  }

  lemma {:induction false} PhaseFreshIsEmpty(events: seq<Event>)
    requires PhaseOf(events) == Fresh
    ensures events == []
  {
  }

  lemma RequestBodyStep(events: seq<Event>, e: Event, c: Ctx, failAt: Option<nat>)
    requires LiveInv(events, c, failAt) && e.RequestBody? && !e.endOfStream && WellFormed(events + [e])
    ensures OutcomeInv(events + [e], Step(c, e, failAt), failAt)
  {
    Snoc(events, e);
    ReferenceAtDecision(events, e);
    var (d, _) := Handle(c, e);
    SendsNothing(d, failAt);
    hide Reference, TrueCount;
  }

  /** The decision about the request is what handling its last body message comes to. */
  lemma LastRequestBodyHandled(events: seq<Event>, e: Event, c: Ctx)
    requires PhaseInv(events, c) && e.RequestBody? && e.endOfStream && WellFormed(events + [e])
    ensures PhaseOf(events) == InRequest && PhaseOf(events + [e]) == RequestDone
    ensures var (d, err) := Handle(c, e);
            match DecisionOf(events + [e])
            case Refused(code) => err == Some(code) && d.request.pod.None? && d == c.(body := [], request := d.request)
            case Scheduled(r, stream) =>
              && err.None? && Decided(Scheduled(r, stream))
              && d == c.(body := [], request := r, streaming := stream, reqHeader := Some(RequestHeaderMsg(r)),
                         reqBody := RequestBodyMsgs(Chunks(r.rawBody, true)))
            case _ => false
  {
    Snoc(events, e);
    var whole := c.body + e.bytes;
    var before := c.request.(rawBody := whole, size := |whole|);
    HandleRequestOutcome(before, e.verdict);
    ReferenceAtDecision(events, e);
    hide HandleRequest, Chunks, RequestBodyMsgs, Reference;
  }

  lemma AcceptedRequestStep(events: seq<Event>, e: Event, c: Ctx, failAt: Option<nat>)
    requires LiveInv(events, c, failAt) && e.RequestBody? && e.endOfStream && WellFormed(events + [e])
    requires DecisionOf(events + [e]).Scheduled?
    ensures OutcomeInv(events + [e], Step(c, e, failAt), failAt)
  {
    hide OutcomeInv, UpdateStateAndSendIfNeeded, Delivers, DecisionOf, Reference, Chunks,
         RequestBodyMsgs, WellFormed, Handle;
    LastRequestBodyHandled(events, e, c);
    ReferenceAtDecision(events, e);
    LastRequestBodyCounts(events, e);
    var d := Handle(c, e).0;
    SendsRequest(d, failAt);
    var msgs := [d.reqHeader.value] + d.reqBody;
    assert d.sent + msgs == msgs;
    DeliveryKeepsInv(events + [e], Step(c, e, failAt), d, msgs, failAt, AfterRequest(d));
  }

  /** The last body message adds nothing to the response. */
  lemma LastRequestBodyCounts(events: seq<Event>, e: Event)
    requires e.RequestBody?
    ensures Pieces(events + [e]) == Pieces(events) && HasResponse(events + [e]) == HasResponse(events)
    ensures HasTrailers(events + [e]) == HasTrailers(events) && SaysEventStream(events + [e]) == SaysEventStream(events)
  {
    Snoc(events, e);
  }

  lemma RefusedRequestStep(events: seq<Event>, e: Event, c: Ctx, failAt: Option<nat>)
    requires LiveInv(events, c, failAt) && e.RequestBody? && e.endOfStream && WellFormed(events + [e])
    requires DecisionOf(events + [e]).Refused?
    ensures OutcomeInv(events + [e], Step(c, e, failAt), failAt)
  {
    hide DecisionOf, Reference, UpdateStateAndSendIfNeeded, Handle, Chunks;
    LastRequestBodyHandled(events, e, c);
    ReferenceAtDecision(events, e);
  }

  lemma LastRequestBodyStep(events: seq<Event>, e: Event, c: Ctx, failAt: Option<nat>)
    requires LiveInv(events, c, failAt) && e.RequestBody? && e.endOfStream && WellFormed(events + [e])
    ensures OutcomeInv(events + [e], Step(c, e, failAt), failAt)
  {
    hide OutcomeInv, Step, Reference, Chunks;
    LastRequestBodyHandled(events, e, c);
    if DecisionOf(events + [e]).Refused? {
      RefusedRequestStep(events, e, c, failAt);
    } else {
      AcceptedRequestStep(events, e, c, failAt);
    }
  }

  lemma RequestTrailersStep(events: seq<Event>, e: Event, c: Ctx, failAt: Option<nat>)
    requires LiveInv(events, c, failAt) && e.RequestTrailers? && WellFormed(events + [e])
    ensures OutcomeInv(events + [e], Step(c, e, failAt), failAt)
  {
    Snoc(events, e);
    ReferenceAfterRequestTrailers(events, e);
    SendsNothing(c, failAt);
    hide Reference, DecisionOf, TrueCount;
  }

  lemma ResponseHeadersStep(events: seq<Event>, e: Event, c: Ctx, failAt: Option<nat>)
    requires LiveInv(events, c, failAt) && e.ResponseHeaders? && WellFormed(events + [e])
    ensures OutcomeInv(events + [e], Step(c, e, failAt), failAt)
  {
    Snoc(events, e);
    ReferenceAfterHeaders(events, e);
    hide Reference, DecisionOf, TrueCount;
    hide UpdateStateAndSendIfNeeded, Delivers;
    var (d, _) := Handle(c, e);
    SendsResponseHeader(d, failAt);
    var after := d.(state := HeaderResponseResponseComplete);
    assert PhaseInv(events + [e], after.(sent := d.sent + [ResponseHeadersReply]));
    DeliveryKeepsInv(events + [e], Step(c, e, failAt), d, [ResponseHeadersReply], failAt, after);
    hide OutcomeInv;
  }

  function AfterBody(d: Ctx): Ctx {
    d.(state := if d.responseComplete then BodyResponseResponsesComplete else d.state, respBody := [])
  }

  lemma ResponseBodyHandled(events: seq<Event>, e: Event, c: Ctx)
    requires PhaseInv(events, c) && PhaseOf(events) == InResponse && e.ResponseBody?
    requires c.reqBody == [] && c.respBody == [] && Completions(c)
    ensures var d := Handle(c, e).0;
            && d.respBody == BodyDelta(events, c.request, e.bytes, e.endOfStream)
            && d.sent == c.sent && d.request == c.request && d.reqBody == [] && d.respTrailer.None?
            && d.state == HeaderResponseResponseComplete && d.streaming == c.streaming
            && d.responseComplete == e.endOfStream && Completions(d)
            && (c.streaming || d.body == c.body + e.bytes)
  {
    TrueCountSnoc(c.bodyCalls, e.endOfStream);
    hide TrueCount, Chunks, RewriteModelName, Joined, Ended, DecisionOf, IsStreamed, HasResponse, HasTrailers, Pieces;
  }

  lemma ResponseBodyPhase(events: seq<Event>, e: Event, c: Ctx, d: Ctx)
    requires PhaseInv(events, c) && PhaseOf(events) == InResponse && e.ResponseBody?
    requires d.request == c.request && d.respTrailer.None? && d.state == HeaderResponseResponseComplete
    requires d.streaming == c.streaming && d.responseComplete == e.endOfStream
             && (c.streaming || d.body == c.body + e.bytes)
    ensures PhaseInv(events + [e], AfterBody(d))
  {
    Snoc(events, e);
    var p, next := Chunk(e.bytes, e.endOfStream), events + [e];
    assert DecisionOf(next) == DecisionOf(events) && IsStreamed(next) == IsStreamed(events)
        && HasResponse(next) && !HasTrailers(next) by {
      ReferenceAfterBody(events, e);
    }
    assert PhaseOf(next) == (if p.eos then ResponseDone else InResponse) && Pieces(next) == Pieces(events) + [p];
    hide DecisionOf, IsStreamed, HasResponse, HasTrailers, Pieces, PhaseOf;
    assert Joined(Pieces(next)) == Joined(Pieces(events)) + p.body && (Ended(Pieces(next)) <==> p.eos) by {
      JoinedSnoc(Pieces(events), p);
    }
    hide Joined, Ended;
  }

  lemma ResponseBodyStep(events: seq<Event>, e: Event, c: Ctx, failAt: Option<nat>)
    requires LiveInv(events, c, failAt) && e.ResponseBody? && WellFormed(events + [e])
    ensures OutcomeInv(events + [e], Step(c, e, failAt), failAt)
  {
    Snoc(events, e);
    assert PhaseOf(events) == InResponse && Decided(DecisionOf(events)) && c.request == DecisionOf(events).request;
    ReferenceAfterBody(events, e);
    var (d, _) := Handle(c, e);
    ResponseBodyHandled(events, e, c);
    ResponseBodyPhase(events, e, c, d);
    SendsResponseBody(d, failAt);
    hide PhaseInv, Reference, BodyDelta, UpdateStateAndSendIfNeeded, Delivers, DecisionOf, Completions;
    assert d.respBody + [] == d.respBody;
    SentIsIgnored(events + [e], AfterBody(d), d.sent + d.respBody);
    DeliveryKeepsInv(events + [e], Step(c, e, failAt), d, d.respBody, failAt, AfterBody(d));
    hide OutcomeInv;
  }

  /** Past the first event, the phase condition does not look at the log. */
  lemma SentIsIgnored(events: seq<Event>, c: Ctx, log: seq<Msg>)
    requires PhaseInv(events, c) && PhaseOf(events) != Fresh
    ensures PhaseInv(events, c.(sent := log))
  {
    hide DecisionOf, IsStreamed, HasResponse, HasTrailers, Pieces, Ended, Joined,
         RequestBytes, HeaderTarget, SaysEventStream;
  }

  lemma ResponseTrailersHandled(events: seq<Event>, e: Event, c: Ctx)
    requires PhaseInv(events, c) && (PhaseOf(events) == InResponse || PhaseOf(events) == ResponseDone)
             && e.ResponseTrailers?
    requires c.reqBody == [] && c.respBody == [] && Completions(c)
    ensures var d := Handle(c, e).0;
            && d.respBody == TrailersDelta(events, c.request) && d.respTrailer == Some(ResponseTrailersReply)
            && d.sent == c.sent && d.request == c.request && d.reqBody == []
            && d.state == c.state && d.responseComplete && Completions(d)
  {
    TrueCountSnoc(c.bodyCalls, true);
    hide TrueCount, Chunks, RewriteModelName, Joined, Ended, DecisionOf, IsStreamed, HasResponse, HasTrailers, Pieces;
  }

  /** Trailers come in a response, ended or not, and close it. */
  lemma ResponseTrailersPhase(events: seq<Event>, e: Event, c: Ctx)
    requires PhaseInv(events, c) && e.ResponseTrailers? && WellFormed(events + [e])
             && c.reqBody == [] && c.respBody == []
    ensures PhaseOf(events) == InResponse || PhaseOf(events) == ResponseDone
    ensures Decided(DecisionOf(events)) && c.request == DecisionOf(events).request
    ensures HasResponse(events) && !HasTrailers(events)
    ensures c.state == if c.responseComplete then BodyResponseResponsesComplete else HeaderResponseResponseComplete
    ensures c.responseComplete ==> Handle(c, e).0.respBody == []
    ensures PhaseOf(events + [e]) == Closed
  {
    hide DecisionOf, Chunks, RewriteModelName, Joined, Pieces, IsStreamed;
    Snoc(events, e);
  }

  lemma ResponseTrailersSent(events: seq<Event>, e: Event, c: Ctx, failAt: Option<nat>)
    requires PhaseInv(events, c) && e.ResponseTrailers? && WellFormed(events + [e]) && Fits(|c.sent|, failAt)
    requires c.reqBody == [] && c.respBody == [] && Completions(c)
    ensures var d := Handle(c, e).0;
            Delivers(Step(c, e, failAt), d, d.respBody + [ResponseTrailersReply], failAt, AfterBody(d))
  {
    hide UpdateStateAndSendIfNeeded, Delivers, Chunks, RewriteModelName, PhaseInv,
         TrailersDelta, DecisionOf, WellFormed;
    ResponseTrailersPhase(events, e, c);
    ResponseTrailersHandled(events, e, c);
    var (d, _) := Handle(c, e);
    if c.responseComplete {
      SendsTrailer(d, failAt);
      assert d.respBody + [ResponseTrailersReply] == [ResponseTrailersReply] && AfterBody(d) == d;
    } else {
      SendsResponseBody(d, failAt);
    }
  }

  lemma ResponseTrailersStep(events: seq<Event>, e: Event, c: Ctx, failAt: Option<nat>)
    requires LiveInv(events, c, failAt) && e.ResponseTrailers? && WellFormed(events + [e])
    ensures OutcomeInv(events + [e], Step(c, e, failAt), failAt)
  {
    hide OutcomeInv, Reference, TrailersDelta, UpdateStateAndSendIfNeeded, Delivers, DecisionOf,
         Completions, Step, Handle, PhaseOf, WellFormed;
    ResponseTrailersPhase(events, e, c);
    ResponseTrailersSent(events, e, c, failAt);
    ReferenceAfterTrailers(events, e);
    ResponseTrailersHandled(events, e, c);
    var d := Handle(c, e).0;
    var msgs := d.respBody + [ResponseTrailersReply];
    DeliveryKeepsInv(events + [e], Step(c, e, failAt), d, msgs, failAt, AfterBody(d));
  }

  lemma StepKeepsInv(events: seq<Event>, e: Event, c: Ctx, failAt: Option<nat>)
    requires LiveInv(events, c, failAt) && WellFormed(events + [e])
    ensures OutcomeInv(events + [e], Step(c, e, failAt), failAt)
  {
    match e
    case RequestHeaders(_, _, _) => RequestHeadersStep(events, e, c, failAt);
    case RequestBody(_, eos, _) =>
      if eos { LastRequestBodyStep(events, e, c, failAt); } else { RequestBodyStep(events, e, c, failAt); }
    case RequestTrailers => RequestTrailersStep(events, e, c, failAt);
    case ResponseHeaders(_) => ResponseHeadersStep(events, e, c, failAt);
    case ResponseBody(_, _) => ResponseBodyStep(events, e, c, failAt);
    case ResponseTrailers => ResponseTrailersStep(events, e, c, failAt);
  }

  /** A run that is over keeps its log a cut-off of the growing reference. */
  lemma OverStaysOver(events: seq<Event>, e: Event, c: Ctx, failAt: Option<nat>)
    requires OverInv(events, c, failAt) && WellFormed(events + [e])
    ensures OverInv(events + [e], c, failAt)
  {
    PhaseFactsHold(events);
    ReferenceExtends(events, e);
    hide Reference, DecisionOf, PhaseFacts, PhaseOf, WellFormed, TrueCount;
  }

  /** Every well-formed run satisfies the invariant, whenever and however a send fails. */
  lemma {:induction false} RunInv(events: seq<Event>, failAt: Option<nat>)
    requires WellFormed(events)
    ensures OutcomeInv(events, Run(events, failAt), failAt)
    decreases |events|
  {
    if events == [] {
      assert TrueCount([]) == 0;
    } else {
      var front, e := Front(events), Last(events);
      assert events == front + [e];
      RunInv(front, failAt);
      match Run(front, failAt)
      case Live(c) => StepKeepsInv(front, e, c, failAt);
      case Over(c, _) => OverStaysOver(front, e, c, failAt);
      hide LiveInv, OverInv, Step, PhaseOf;
    }
  }
}
