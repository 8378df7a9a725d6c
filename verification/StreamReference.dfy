// Well-formed ext-proc runs, and what must be sent in one, read off the received events alone.
module StreamReference {
  import opened Wrappers
  import opened Sequences
  import opened Chunking
  import opened ModelName
  import opened Director
  import opened Stream

  // ---- Well-formed runs ----

  datatype Phase = Fresh | InRequest | RequestDone | InResponse | ResponseDone | Closed | Malformed

  function NextPhase(p: Phase, e: Event): Phase {
    match (p, e)
    case (Fresh, RequestHeaders(eos, _, _)) => if eos then RequestDone else InRequest
    case (InRequest, RequestBody(_, eos, _)) => if eos then RequestDone else InRequest
    case (RequestDone, RequestTrailers) => RequestDone
    case (RequestDone, ResponseHeaders(_)) => InResponse
    case (InResponse, ResponseBody(_, eos)) => if eos then ResponseDone else InResponse
    case (InResponse, ResponseTrailers) => Closed
    case (ResponseDone, ResponseTrailers) => Closed
    case _ => Malformed
  }

  function PhaseOf(events: seq<Event>): Phase {
    if events == [] then Fresh else NextPhase(PhaseOf(Front(events)), Last(events))
  }

  predicate WellFormed(events: seq<Event>) {
    PhaseOf(events) != Malformed
  }

  // ---- What the events say, independently of the code's state ----

  function Front(events: seq<Event>): seq<Event>
    requires events != []
  {
    events[..|events| - 1]
  }

  function Last(events: seq<Event>): Event
    requires events != []
  {
    events[|events| - 1]
  }

  /** The request body received so far. */
  function RequestBytes(events: seq<Event>): Bytes {
    if events == [] then []
    else RequestBytes(Front(events)) + if Last(events).RequestBody? then Last(events).bytes else []
  }

  /** The model name asked for by the rewrite header. */
  function HeaderTarget(events: seq<Event>): Bytes {
    if events == [] then []
    else
      match Last(events)
      case RequestHeaders(false, Some(target), _) => target
      case _ => HeaderTarget(Front(events))
  }

  datatype Decision =
    | Undecided
    | Refused(code: ErrorCode)
    | Forwarded(request: Request)
    | Scheduled(request: Request, stream: bool)

  function DecisionOf(events: seq<Event>): Decision {
    if events == [] then Undecided
    else
      match Last(events)
      case RequestHeaders(true, _, endpoint) =>
        if endpoint.None? then Refused(Internal) else Forwarded(Request([], 0, [], [], None, endpoint.value))
      case RequestBody(_, true, verdict) =>
        var whole := RequestBytes(events);
        var (r, err) := HandleRequest(Request(whole, |whole|, [], HeaderTarget(events), None, ""), verdict);
        if err.Some? then Refused(err.value) else Scheduled(r, verdict.stream)
      case _ => DecisionOf(Front(events))
  }

  /** The verdict on the request, once its body has ended. */
  function VerdictOf(events: seq<Event>): Option<Verdict> {
    if events == [] then None
    else
      match Last(events)
      case RequestBody(_, true, verdict) => Some(verdict)
      case _ => VerdictOf(Front(events))
  }

  function HasResponse(events: seq<Event>): bool {
    events != [] && (Last(events).ResponseHeaders? || HasResponse(Front(events)))
  }

  function HasTrailers(events: seq<Event>): bool {
    events != [] && (Last(events).ResponseTrailers? || HasTrailers(Front(events)))
  }

  function SaysEventStream(events: seq<Event>): bool {
    events != [] &&
    ((Last(events).ResponseHeaders? && AnnouncesEventStream(Last(events).headers)) || SaysEventStream(Front(events)))
  }

  lemma ContainsIff(s: string, sub: string)
    ensures Contains(s, sub) <==> exists before, after :: s == before + sub + after
  {
    if i :| 0 <= i <= |s| && sub <= s[i..] {
      assert s == s[..i] + sub + s[i + |sub|..];
    }
    if before, after :| s == before + sub + after {
      assert s[|before|..] == sub + after;
    }
  }

  /** A response is announced as an event stream exactly when a content type has that name in it. */
  lemma AnnouncesIff(headers: seq<(string, string)>)
    ensures AnnouncesEventStream(headers)
       <==> exists before, after :: ("content-type", before + "text/event-stream" + after) in headers
  {
    hide Contains;
    if i :| 0 <= i < |headers| && headers[i].0 == "content-type" && Contains(headers[i].1, "text/event-stream") {
      ContainsIff(headers[i].1, "text/event-stream");
      var before, after :| headers[i].1 == before + "text/event-stream" + after;
      assert headers[i] == ("content-type", before + "text/event-stream" + after);
    }
    if before, after :| ("content-type", before + "text/event-stream" + after) in headers {
      var i :| 0 <= i < |headers| && headers[i] == ("content-type", before + "text/event-stream" + after);
      ContainsIff(headers[i].1, "text/event-stream");
    }
  }

  /** The response body messages received so far. */
  function Pieces(events: seq<Event>): seq<Chunk> {
    if events == [] then []
    else
      match Last(events)
      case ResponseBody(bytes, eos) => Pieces(Front(events)) + [Chunk(bytes, eos)]
      case _ => Pieces(Front(events))
  }

  predicate Ended(pieces: seq<Chunk>) {
    exists i :: 0 <= i < |pieces| && pieces[i].eos
  }

  predicate IsStreamed(events: seq<Event>) {
    (DecisionOf(events).Scheduled? && DecisionOf(events).stream) || SaysEventStream(events)
  }

  // ---- What must be sent ----

  function RequestReply(d: Decision): seq<Msg> {
    match d
    case Undecided => []
    case Refused(code) => ErrorReply(code)
    case Forwarded(r) => [RequestHeaderMsg(r)]
    case Scheduled(r, _) => [RequestHeaderMsg(r)] + RequestBodyMsgs(Chunks(r.rawBody, true))
  }

  function StreamedReply(pieces: seq<Chunk>, r: Request): seq<Msg> {
    if pieces == [] then []
    else
      var last := pieces[|pieces| - 1];
      StreamedReply(pieces[..|pieces| - 1], r)
      + ResponseBodyMsgs(Chunks(RewriteModelName(last.body, r.target, r.incoming), last.eos))
  }

  function BufferedReply(pieces: seq<Chunk>, r: Request, trailers: bool): seq<Msg> {
    if Ended(pieces) || trailers then
      ResponseBodyMsgs(Chunks(RewriteModelName(Joined(pieces), r.target, r.incoming), Ended(pieces)))
    else []
  }

  /** The body messages due so far. */
  function BodyReply(events: seq<Event>, r: Request): seq<Msg> {
    if IsStreamed(events) then StreamedReply(Pieces(events), r)
    else BufferedReply(Pieces(events), r, HasTrailers(events))
  }

  /** Request messages, then, once a response has begun, its header, its body and its trailer. */
  function Assemble(q: seq<Msg>, begun: bool, body: seq<Msg>, trailers: bool): seq<Msg> {
    if begun then q + [ResponseHeadersReply] + body + (if trailers then [ResponseTrailersReply] else []) else q
  }

  /** The messages due for a run, as a function of what was received. */
  function Reference(events: seq<Event>): seq<Msg> {
    var d := DecisionOf(events);
    if d.Forwarded? || d.Scheduled? then
      Assemble(RequestReply(d), HasResponse(events), BodyReply(events, d.request), HasTrailers(events))
    else RequestReply(d)
  }

  function Truncate(log: seq<Msg>, failAt: Option<nat>): seq<Msg> {
    if failAt.None? || |log| <= failAt.value then log else log[..failAt.value]
  }

  // ---- How the reference grows with each event ----

  lemma Snoc(events: seq<Event>, e: Event)
    ensures Front(events + [e]) == events && Last(events + [e]) == e
  {
  }

  lemma JoinedSnoc(pieces: seq<Chunk>, p: Chunk)
    ensures Joined(pieces + [p]) == Joined(pieces) + p.body
    ensures Ended(pieces + [p]) <==> Ended(pieces) || p.eos
  {
    JoinedConcat(pieces, [p]);
    assert Joined([p]) == p.body + Joined([]);
    if p.eos {
      assert (pieces + [p])[|pieces|].eos;
    }
    if Ended(pieces) {
      var i :| 0 <= i < |pieces| && pieces[i].eos;
      assert (pieces + [p])[i].eos;
    }
  }

  lemma AssembleGrowsBody(q: seq<Msg>, body: seq<Msg>, delta: seq<Msg>)
    ensures Assemble(q, true, body + delta, false) == Assemble(q, true, body, false) + delta
  {
    var x := q + [ResponseHeadersReply];
    ConcatAssoc(x, body, delta);
    assert x + (body + delta) + [] == x + (body + delta) && x + body + [] == x + body;
  }

  lemma AssembleGrowsTrailers(q: seq<Msg>, body: seq<Msg>, delta: seq<Msg>)
    ensures Assemble(q, true, body + delta, true) == Assemble(q, true, body, false) + (delta + [ResponseTrailersReply])
  {
    var x := q + [ResponseHeadersReply];
    ConcatAssoc(x, body, delta);
    ConcatAssoc(x + body, delta, [ResponseTrailersReply]);
    assert x + body + [] == x + body;
  }

  /** The messages added by one response body message. */
  function BodyDelta(events: seq<Event>, r: Request, bytes: Bytes, eos: bool): seq<Msg> {
    if IsStreamed(events) then ResponseBodyMsgs(Chunks(RewriteModelName(bytes, r.target, r.incoming), eos))
    else if eos then
      ResponseBodyMsgs(Chunks(RewriteModelName(Joined(Pieces(events)) + bytes, r.target, r.incoming), true))
    else []
  }

  lemma StreamedReplySnoc(pieces: seq<Chunk>, p: Chunk, r: Request)
    ensures StreamedReply(pieces + [p], r)
         == StreamedReply(pieces, r) + ResponseBodyMsgs(Chunks(RewriteModelName(p.body, r.target, r.incoming), p.eos))
  {
    assert (pieces + [p])[..|pieces|] == pieces;
  }

  lemma BodyReplyGrows(events: seq<Event>, e: Event, r: Request)
    requires e.ResponseBody? && !Ended(Pieces(events)) && !HasTrailers(events)
    ensures BodyReply(events + [e], r) == BodyReply(events, r) + BodyDelta(events, r, e.bytes, e.endOfStream)
    ensures IsStreamed(events + [e]) == IsStreamed(events)
  {
    Snoc(events, e);
    var p := Chunk(e.bytes, e.endOfStream);
    JoinedSnoc(Pieces(events), p);
    StreamedReplySnoc(Pieces(events), p, r);
    hide Joined, Ended, StreamedReply, Chunks, RewriteModelName;
    assert Pieces(events + [e]) == Pieces(events) + [p];
  }

  lemma ReferenceAfterBody(events: seq<Event>, e: Event)
    requires e.ResponseBody? && Decided(DecisionOf(events))
    requires HasResponse(events) && !HasTrailers(events) && !Ended(Pieces(events))
    ensures DecisionOf(events + [e]) == DecisionOf(events) && IsStreamed(events + [e]) == IsStreamed(events)
    ensures HasResponse(events + [e]) && !HasTrailers(events + [e])
    ensures Reference(events + [e])
         == Reference(events) + BodyDelta(events, DecisionOf(events).request, e.bytes, e.endOfStream)
  {
    Snoc(events, e);
    var d := DecisionOf(events);
    assert DecisionOf(events + [e]) == d && HasResponse(events + [e]) && !HasTrailers(events + [e]);
    BodyReplyGrows(events, e, d.request);
    hide DecisionOf, BodyReply, BodyDelta, HasResponse, HasTrailers, IsStreamed, RequestReply, Ended;
    AssembleGrowsBody(RequestReply(d), BodyReply(events, d.request),
                      BodyDelta(events, d.request, e.bytes, e.endOfStream));
  }

  /** The body messages added by the response trailers. */
  function TrailersDelta(events: seq<Event>, r: Request): seq<Msg> {
    if IsStreamed(events) || Ended(Pieces(events)) then []
    else ResponseBodyMsgs(Chunks(RewriteModelName(Joined(Pieces(events)), r.target, r.incoming), false))
  }

  lemma BodyReplyAtTrailers(events: seq<Event>, e: Event, r: Request)
    requires e.ResponseTrailers? && !HasTrailers(events)
    ensures BodyReply(events + [e], r) == BodyReply(events, r) + TrailersDelta(events, r)
  {
    Snoc(events, e);
    hide Joined, Ended, StreamedReply, Chunks, RewriteModelName;
    assert Pieces(events + [e]) == Pieces(events) && HasTrailers(events + [e]);
  }

  lemma ReferenceAfterTrailers(events: seq<Event>, e: Event)
    requires e.ResponseTrailers? && Decided(DecisionOf(events)) && HasResponse(events) && !HasTrailers(events)
    ensures DecisionOf(events + [e]) == DecisionOf(events)
    ensures Reference(events + [e])
         == Reference(events) + (TrailersDelta(events, DecisionOf(events).request) + [ResponseTrailersReply])
  {
    Snoc(events, e);
    var d := DecisionOf(events);
    assert DecisionOf(events + [e]) == d && HasResponse(events + [e]) && HasTrailers(events + [e]);
    BodyReplyAtTrailers(events, e, d.request);
    hide DecisionOf, BodyReply, TrailersDelta, HasResponse, HasTrailers, IsStreamed, RequestReply, Ended;
    AssembleGrowsTrailers(RequestReply(d), BodyReply(events, d.request), TrailersDelta(events, d.request));
  }

  lemma ReferenceAfterHeaders(events: seq<Event>, e: Event)
    requires e.ResponseHeaders? && Decided(DecisionOf(events))
    requires !HasResponse(events) && !HasTrailers(events) && Pieces(events) == []
    ensures DecisionOf(events + [e]) == DecisionOf(events)
    ensures Reference(events) == RequestReply(DecisionOf(events))
    ensures Reference(events + [e]) == Reference(events) + [ResponseHeadersReply]
  {
    Snoc(events, e);
    var d := DecisionOf(events);
    assert DecisionOf(events + [e]) == d && HasResponse(events + [e]) && !HasTrailers(events + [e]);
    assert Pieces(events + [e]) == [] && BodyReply(events + [e], d.request) == [];
    hide DecisionOf, BodyReply, HasResponse, HasTrailers, RequestReply, Pieces;
  }

  lemma ReferenceAtDecision(events: seq<Event>, e: Event)
    requires (e.RequestBody? || e.RequestHeaders?) && DecisionOf(events).Undecided? && !HasResponse(events)
    ensures Reference(events) == [] && Reference(events + [e]) == RequestReply(DecisionOf(events + [e]))
  {
    Snoc(events, e);
    assert !HasResponse(events + [e]);
    hide DecisionOf, BodyReply, HasResponse, HasTrailers;
  }

  lemma ReferenceAfterRequestTrailers(events: seq<Event>, e: Event)
    requires e.RequestTrailers? && Decided(DecisionOf(events)) && !HasResponse(events)
    ensures DecisionOf(events + [e]) == DecisionOf(events) && Reference(events + [e]) == Reference(events)
  {
    Snoc(events, e);
    assert DecisionOf(events + [e]) == DecisionOf(events) && !HasResponse(events + [e]);
    hide DecisionOf, BodyReply, HasResponse, HasTrailers, RequestReply;
  }

  // ---- What a well-formed run's phase says about its events ----

  /** A request that was routed: scheduled to a pod with its size announced, or forwarded without one. */
  predicate Decided(d: Decision) {
    || (d.Forwarded? && d.request.pod.None?)
    || (d.Scheduled? && d.request.pod.Some? && d.request.size == |d.request.rawBody|)
  }

  /** What the phase of a well-formed run says about its events. */
  predicate PhaseFacts(events: seq<Event>) {
    var d := DecisionOf(events);
    match PhaseOf(events)
    case Malformed => false
    case Fresh => d.Undecided? && !HasResponse(events) && Pieces(events) == [] && !HasTrailers(events)
    case InRequest => d.Undecided? && !HasResponse(events) && Pieces(events) == [] && !HasTrailers(events)
    case RequestDone => (d.Refused? || Decided(d)) && !HasResponse(events) && Pieces(events) == []
      && !HasTrailers(events)
    case InResponse => (d.Refused? || Decided(d)) && HasResponse(events) && !Ended(Pieces(events))
      && !HasTrailers(events)
    case ResponseDone => (d.Refused? || Decided(d)) && HasResponse(events) && Ended(Pieces(events))
      && !HasTrailers(events)
    case Closed => (d.Refused? || Decided(d)) && HasResponse(events) && HasTrailers(events)
  }

  lemma {:induction false} PhaseFactsHold(events: seq<Event>)
    requires WellFormed(events)
    ensures PhaseFacts(events)
    decreases |events|
  {
    if events != [] {
      PhaseFactsHold(Front(events));
      match Last(events)
      case RequestBody(_, eos, verdict) =>
        var whole := RequestBytes(events);
        HandleRequestOutcome(Request(whole, |whole|, [], HeaderTarget(events), None, ""), verdict);
      case ResponseBody(bytes, eos) => JoinedSnoc(Pieces(Front(events)), Chunk(bytes, eos));
      case _ =>
    }
  }

  /** A body that has ended decides, with all that was received of it; a request without one was decided at once. */
  lemma {:induction false} DecidedByVerdict(events: seq<Event>)
    requires WellFormed(events)
    ensures PhaseOf(events) == Fresh || PhaseOf(events) == InRequest ==> VerdictOf(events).None?
    ensures VerdictOf(events).Some? ==>
              var whole, v := RequestBytes(events), VerdictOf(events).value;
              var (r, err) := HandleRequest(Request(whole, |whole|, [], HeaderTarget(events), None, ""), v);
              DecisionOf(events) == if err.Some? then Refused(err.value) else Scheduled(r, v.stream)
    decreases |events|
  {
    hide HandleRequest;
    if events != [] {
      DecidedByVerdict(Front(events));
      assert RequestBytes(Front(events)) + [] == RequestBytes(Front(events));
    }
  }

  /** Headers that end the stream decide. */
  lemma {:induction false} DecidedByHeaders(events: seq<Event>)
    requires WellFormed(events) && events != [] && events[0].RequestHeaders? && events[0].endOfStream
    ensures PhaseOf(events) != Fresh && PhaseOf(events) != InRequest
    ensures DecisionOf(events) == DecisionOf(events[..1])
    decreases |events|
  {
    if |events| == 1 {
      assert events[..1] == events;
    } else {
      assert Front(events)[..1] == events[..1];
      DecidedByHeaders(Front(events));
    }
  }

  /** Receiving more never takes back what was already due. */
  lemma ReferenceExtends(events: seq<Event>, e: Event)
    requires WellFormed(events + [e]) && !DecisionOf(events).Undecided? && PhaseFacts(events)
    ensures DecisionOf(events + [e]) == DecisionOf(events) && Reference(events) <= Reference(events + [e])
  {
    Snoc(events, e);
    var d := DecisionOf(events);
    if d.Refused? {
      assert DecisionOf(events + [e]) == d;
    } else {
      match e
      case RequestTrailers => ReferenceAfterRequestTrailers(events, e);
      case ResponseHeaders(_) => ReferenceAfterHeaders(events, e);
      case ResponseBody(_, _) => ReferenceAfterBody(events, e);
      case ResponseTrailers => ReferenceAfterTrailers(events, e);
      hide Reference;
    }
  }
}
