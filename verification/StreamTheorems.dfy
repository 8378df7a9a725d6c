// What every well-formed ext-proc run sends, in which order, and how it is accounted for.
module StreamTheorems {
  import opened Wrappers
  import opened Sequences
  import opened Chunking
  import opened ModelName
  import opened PiecewiseReplace
  import opened PiecewiseRename
  import opened Director
  import opened Stream
  import opened StreamReference
  import opened StreamInvariant

  /** The log of a well-formed run is the reference log, cut off where a send failed. */
  lemma SentIsReference(events: seq<Event>, failAt: Option<nat>)
    requires WellFormed(events)
    ensures Run(events, failAt).ctx.sent == Truncate(Reference(events), failAt)
  {
    RunInv(events, failAt);
    hide Run, PhaseInv, Reference, DecisionOf, WellFormed, Completions;
  }

  // ---- Order ----

  /** Header, body, trailer: the place of a message in the two-way exchange. */
  function Rank(m: Msg): nat {
    match m
    case RequestHeadersReply(_, _) => 0
    case RequestBodyReply(_) => 1
    case ResponseHeadersReply => 2
    case ResponseBodyReply(_) => 3
    case ResponseTrailersReply => 4
    case ImmediateReply(_) => 5
  }

  /** The order FULL_DUPLEX_STREAMED demands: header, body, trailer, for the request and then for the
      response, only body messages repeated; an immediate reply stands alone. */
  predicate InOrder(log: seq<Msg>) {
    && (forall i, j :: 0 <= i < j < |log| ==>
          && Rank(log[i]) <= Rank(log[j])
          && (Rank(log[i]) == Rank(log[j]) ==> log[i].RequestBodyReply? || log[i].ResponseBodyReply?))
    && (|log| > 0 ==> log[0].RequestHeadersReply? || (log[0].ImmediateReply? && |log| == 1))
    && (forall i :: 0 <= i < |log| && Rank(log[i]) > 2 && |log| > 1 ==>
          exists j :: 0 <= j < i && log[j].ResponseHeadersReply?)
  }

  lemma InOrderPrefix(log: seq<Msg>, n: nat)
    requires InOrder(log) && n <= |log|
    ensures InOrder(log[..n])
  {
    var p := log[..n];
    forall i | 0 <= i < |p| && Rank(p[i]) > 2 && |p| > 1
      ensures exists j :: 0 <= j < i && p[j].ResponseHeadersReply?
    {
      assert p[i] == log[i];
      var j :| 0 <= j < i && log[j].ResponseHeadersReply?;
      assert p[j].ResponseHeadersReply?;
    }
  }

  lemma InOrderAssemble(h: Msg, b: seq<Msg>, begun: bool, s: seq<Msg>, trailers: bool)
    requires h.RequestHeadersReply?
    requires forall m :: m in b ==> m.RequestBodyReply?
    requires forall m :: m in s ==> m.ResponseBodyReply?
    ensures InOrder(Assemble([h] + b, begun, s, trailers))
  {
    var log := Assemble([h] + b, begun, s, trailers);
    forall i | 0 <= i < |log|
      ensures if i == 0 then log[i] == h else if i <= |b| then log[i].RequestBodyReply?
              else if i == |b| + 1 then log[i] == ResponseHeadersReply
              else if i <= |b| + 1 + |s| then log[i].ResponseBodyReply? else log[i] == ResponseTrailersReply
    {
      if 0 < i <= |b| {
        assert log[i] == b[i - 1];
      } else if |b| + 1 < i <= |b| + 1 + |s| {
        assert log[i] == s[i - |b| - 2];
      }
    }
    if begun {
      assert log[|b| + 1] == ResponseHeadersReply;
    }
  }

  lemma {:induction false} StreamedReplyKind(pieces: seq<Chunk>, r: Request)
    ensures forall m :: m in StreamedReply(pieces, r) ==> m.ResponseBodyReply?
    decreases |pieces|
  {
    if pieces != [] {
      StreamedReplyKind(pieces[..|pieces| - 1], r);
    }
  }

  lemma ReferenceInOrder(events: seq<Event>)
    requires WellFormed(events)
    ensures InOrder(Reference(events))
  {
    PhaseFactsHold(events);
    var d := DecisionOf(events);
    hide DecisionOf, Pieces, HasResponse, HasTrailers, PhaseOf, Chunks, RewriteModelName, StreamedReply, Joined, Ended;
    if Decided(d) {
      StreamedReplyKind(Pieces(events), d.request);
      var body := if d.Scheduled? then RequestBodyMsgs(Chunks(d.request.rawBody, true)) else [];
      assert RequestReply(d) == [RequestHeaderMsg(d.request)] + body;
      assert forall m :: m in BodyReply(events, d.request) ==> m.ResponseBodyReply?;
      hide BodyReply;
      InOrderAssemble(RequestHeaderMsg(d.request), body, HasResponse(events), BodyReply(events, d.request),
                      HasTrailers(events));
      hide InOrder, Assemble;
    }
  }

  /** Every well-formed run keeps the protocol's order, even when it is cut off by a failed send. */
  lemma SentInOrder(events: seq<Event>, failAt: Option<nat>)
    requires WellFormed(events)
    ensures InOrder(Run(events, failAt).ctx.sent)
  {
    SentIsReference(events, failAt);
    ReferenceInOrder(events);
    hide Run, Reference, InOrder;
    var due := Reference(events);
    var n := |Truncate(due, failAt)|;
    InOrderPrefix(due, n);
    assert Truncate(due, failAt) == due[..n];
  }

  // ---- Accounting ----

  /** However a well-formed run ends, a scheduled request is completed with the director exactly once. */
  lemma CompletedExactlyOnce(events: seq<Event>, failAt: Option<nat>)
    requires WellFormed(events)
    ensures var c := Close(Run(events, failAt).ctx);
            && (c.request.pod.Some? <==> DecisionOf(events).Scheduled?)
            && TrueCount(c.bodyCalls) == (if c.request.pod.Some? || c.responseComplete then 1 else 0)
  {
    RunInv(events, failAt);
    hide Run, PhaseInv, Reference, DecisionOf, WellFormed;
    CloseCounts(Run(events, failAt).ctx);
  }

  lemma CloseCounts(c: Ctx)
    requires Completions(c)
    ensures TrueCount(Close(c).bodyCalls) == (if c.request.pod.Some? || c.responseComplete then 1 else 0)
    ensures Close(c).request == c.request && Close(c).responseComplete == c.responseComplete
  {
    TrueCountSnoc(c.bodyCalls, true);
  }

  // ---- Content ----

  function RequestChunks(log: seq<Msg>): seq<Chunk> {
    if log == [] then []
    else (if log[0].RequestBodyReply? then [log[0].chunk] else []) + RequestChunks(log[1..])
  }

  function ResponseChunks(log: seq<Msg>): seq<Chunk> {
    if log == [] then []
    else (if log[0].ResponseBodyReply? then [log[0].chunk] else []) + ResponseChunks(log[1..])
  }

  lemma {:induction false} ChunksOfConcat(a: seq<Msg>, b: seq<Msg>)
    ensures RequestChunks(a + b) == RequestChunks(a) + RequestChunks(b)
    ensures ResponseChunks(a + b) == ResponseChunks(a) + ResponseChunks(b)
    decreases |a|
  {
    if a == [] {
      assert a + b == b;
    } else {
      var rest := a[1..];
      ChunksOfConcat(rest, b);
      assert (a + b)[1..] == rest + b && (a + b)[0] == a[0];
      var req := if a[0].RequestBodyReply? then [a[0].chunk] else [];
      var resp := if a[0].ResponseBodyReply? then [a[0].chunk] else [];
      assert RequestChunks(a) == req + RequestChunks(rest) && RequestChunks(a + b) == req + RequestChunks(rest + b);
      assert ResponseChunks(a) == resp + ResponseChunks(rest)
             && ResponseChunks(a + b) == resp + ResponseChunks(rest + b);
      hide RequestChunks, ResponseChunks;
      ConcatAssoc(req, RequestChunks(rest), RequestChunks(b));
      ConcatAssoc(resp, ResponseChunks(rest), ResponseChunks(b));
    }
  }

  lemma {:induction false} ChunksOfMsgs(cs: seq<Chunk>)
    ensures RequestChunks(RequestBodyMsgs(cs)) == cs && ResponseChunks(RequestBodyMsgs(cs)) == []
    ensures ResponseChunks(ResponseBodyMsgs(cs)) == cs && RequestChunks(ResponseBodyMsgs(cs)) == []
    decreases |cs|
  {
    if cs != [] {
      ChunksOfMsgs(cs[1..]);
      assert RequestBodyMsgs(cs)[1..] == RequestBodyMsgs(cs[1..]);
      assert ResponseBodyMsgs(cs)[1..] == ResponseBodyMsgs(cs[1..]);
    }
  }

  predicate WithinLimit(cs: seq<Chunk>) {
    forall c :: c in cs ==> |c.body| <= 62000
  }

  /** `eos` marks the last chunk only; without it no chunk is marked. */
  predicate MarkedLast(cs: seq<Chunk>, eos: bool) {
    forall i :: 0 <= i < |cs| ==> (cs[i].eos <==> eos && i == |cs| - 1)
  }

  lemma {:induction false} NoRequestChunksInReply(pieces: seq<Chunk>, r: Request)
    ensures RequestChunks(StreamedReply(pieces, r)) == []
    decreases |pieces|
  {
    if pieces != [] {
      var n := |pieces| - 1;
      NoRequestChunksInReply(pieces[..n], r);
      var cs := Chunks(RewriteModelName(pieces[n].body, r.target, r.incoming), pieces[n].eos);
      ChunksOfConcat(StreamedReply(pieces[..n], r), ResponseBodyMsgs(cs));
      ChunksOfMsgs(cs);
    }
  }

  lemma ChunksOfRequestReply(d: Decision)
    requires Decided(d)
    ensures RequestChunks(RequestReply(d)) == (if d.Scheduled? then Chunks(d.request.rawBody, true) else [])
    ensures ResponseChunks(RequestReply(d)) == []
  {
    if d.Scheduled? {
      var cs := Chunks(d.request.rawBody, true);
      ChunksOfMsgs(cs);
      ChunksOfConcat([RequestHeaderMsg(d.request)], RequestBodyMsgs(cs));
      assert RequestChunks([RequestHeaderMsg(d.request)]) == [] && ResponseChunks([RequestHeaderMsg(d.request)]) == [];
    }
  }

  lemma ChunksOfBodyReply(events: seq<Event>, r: Request)
    ensures RequestChunks(BodyReply(events, r)) == []
  {
    NoRequestChunksInReply(Pieces(events), r);
    var out := RewriteModelName(Joined(Pieces(events)), r.target, r.incoming);
    ChunksOfMsgs(Chunks(out, Ended(Pieces(events))));
    hide Pieces, Chunks, RewriteModelName, Joined, Ended, StreamedReply, IsStreamed, HasTrailers;
  }

  lemma ChunksOfAssemble(q: seq<Msg>, begun: bool, body: seq<Msg>, trailers: bool)
    requires RequestChunks(body) == [] && ResponseChunks(q) == []
    ensures RequestChunks(Assemble(q, begun, body, trailers)) == RequestChunks(q)
    ensures ResponseChunks(Assemble(q, begun, body, trailers)) == if begun then ResponseChunks(body) else []
  {
    var head, tail := [ResponseHeadersReply], if trailers then [ResponseTrailersReply] else [];
    assert RequestChunks(head) == [] && ResponseChunks(head) == [];
    assert RequestChunks(tail) == [] && ResponseChunks(tail) == [];
    ChunksOfConcat(q, head);
    ChunksOfConcat(q + head, body);
    ChunksOfConcat(q + head + body, tail);
    hide RequestChunks, ResponseChunks;
  }

  lemma ChunksOfReference(events: seq<Event>)
    requires Decided(DecisionOf(events))
    ensures var d := DecisionOf(events);
            && RequestChunks(Reference(events)) == (if d.Scheduled? then Chunks(d.request.rawBody, true) else [])
            && (HasResponse(events) ==>
                  ResponseChunks(Reference(events)) == ResponseChunks(BodyReply(events, d.request)))
  {
    var d := DecisionOf(events);
    ChunksOfRequestReply(d);
    ChunksOfBodyReply(events, d.request);
    hide DecisionOf, RequestReply, BodyReply, HasResponse, HasTrailers, RequestChunks, ResponseChunks, Chunks;
    ChunksOfAssemble(RequestReply(d), HasResponse(events), BodyReply(events, d.request), HasTrailers(events));
  }

  lemma FirstOfReference(events: seq<Event>)
    requires Decided(DecisionOf(events))
    ensures |Reference(events)| > 0 && Reference(events)[0] == RequestHeaderMsg(DecisionOf(events).request)
  {
    hide DecisionOf, BodyReply, HasResponse, HasTrailers, Chunks;
  }

  /** An accepted request: the first message announces the picked endpoints, in order, and the length of the body to be
      sent; the body goes out whole, in chunks within the limit and ended once. */
  lemma RequestDelivered(events: seq<Event>)
    requires WellFormed(events) && VerdictOf(events).Some? && Accepts(VerdictOf(events).value)
    ensures var log, v := Run(events, None).ctx.sent, VerdictOf(events).value;
            var body, picked := BodyToSend(RequestBytes(events), v), [v.schedule.first] + v.schedule.others;
            && DecisionOf(events).Scheduled?
            && |log| > 0 && log[0].RequestHeadersReply?
            && log[0].contentLength == (if |body| > 0 then Some(|body|) else None)
            && (CommaFree(picked) ==> Split(log[0].endpoint, ',') == picked)
            && Joined(RequestChunks(log)) == body
            && WithinLimit(RequestChunks(log)) && RequestChunks(log) != [] && MarkedLast(RequestChunks(log), true)
  {
    SentIsReference(events, None);
    PhaseFactsHold(events);
    DecidedByVerdict(events);
    var whole, v := RequestBytes(events), VerdictOf(events).value;
    HandleRequestOutcome(Request(whole, |whole|, [], HeaderTarget(events), None, ""), v);
    ChunksOfReference(events);
    FirstOfReference(events);
    ChunksFaithful(DecisionOf(events).request.rawBody, true);
    hide Run, DecisionOf, Reference, HandleRequest, RequestBytes, HeaderTarget, VerdictOf, Chunks, RequestChunks,
         Joined, PhaseOf, Split, WithinLimit, MarkedLast;
  }

  lemma AtHeaders(events: seq<Event>)
    requires events != [] && events[0].RequestHeaders? && events[0].endOfStream
    ensures DecisionOf(events[..1])
         == if events[0].randomEndpoint.None? then Refused(Internal)
            else Forwarded(Request([], 0, [], [], None, events[0].randomEndpoint.value))
  {
    assert events[..1][0] == events[0];
  }

  lemma RefusedReference(events: seq<Event>)
    requires DecisionOf(events).Refused?
    ensures Reference(events) == ErrorReply(DecisionOf(events).code)
  {
  }

  /** A request without a body goes to the endpoint it was given, with no body and no length. */
  lemma ForwardedDelivered(events: seq<Event>)
    requires WellFormed(events) && events != [] && events[0].RequestHeaders? && events[0].endOfStream
    ensures var log, given := Run(events, None).ctx.sent, events[0].randomEndpoint;
            if given.None? then log == [ImmediateReply(500)]
            else |log| > 0 && log[0] == RequestHeadersReply(given.value, None) && RequestChunks(log) == []
  {
    hide Run, DecisionOf, Reference, PhaseOf, RequestChunks;
    SentIsReference(events, None);
    DecidedByHeaders(events);
    AtHeaders(events);
    if events[0].randomEndpoint.Some? {
      ChunksOfReference(events);
      FirstOfReference(events);
    } else {
      RefusedReference(events);
    }
  }

  /** A verdict whose body was parsed, renamed and repackaged. */
  predicate BodyTaken(v: Verdict) {
    && v.parsed.Some? && !v.parsed.value.OtherPayload?
    && (v.parsed.value.MapPayload? ==> v.parsed.value.model.Some? && v.marshalled.Some?)
  }

  /** What a refused request is answered with. */
  predicate RefusedWith(v: Verdict, log: seq<Msg>) {
    && (v.parsed.None? || v.parsed.value.OtherPayload? || v.parsed.value == MapPayload(None) ==>
          log == [ImmediateReply(400)])
    && (v.parsed.Some? && v.parsed.value.MapPayload? && v.parsed.value.model.Some? && v.marshalled.None? ==>
          log == [ImmediateReply(500)])
    && (BodyTaken(v) ==>
          && (v.admission == Some(BadRequest) ==> log == [ImmediateReply(400)])
          && (v.admission == Some(Unauthorized) ==> log == [ImmediateReply(401)])
          && (v.admission == Some(Forbidden) ==> log == [ImmediateReply(403)])
          && (v.admission == Some(NotFound) ==> log == [ImmediateReply(404)])
          && (v.admission == Some(ResourceExhausted) ==> log == [ImmediateReply(429)])
          && (v.admission == Some(Internal) ==> log == [ImmediateReply(500)])
          && (v.admission == Some(ServiceUnavailable) ==> log == [ImmediateReply(503)])
          && (v.admission == Some(Unknown) || v.admission == Some(ModelServerError) ==> log == []))
    && (BodyTaken(v) && v.admission.None? ==>
          && (v.candidates == 0 ==> log == [ImmediateReply(503)])
          && (v.candidates > 0 && !v.pluginsAdmit ==> log == [ImmediateReply(500)])
          && (v.candidates > 0 && v.pluginsAdmit && v.schedule.ScheduleFailed? ==> log == [ImmediateReply(429)])
          && (v.candidates > 0 && v.pluginsAdmit && v.schedule.NoProfiles? ==> log == [ImmediateReply(500)]))
  }

  lemma HandleRefuses(r: Request, v: Verdict)
    requires !Accepts(v)
    ensures HandleRequest(r, v).1.Some? && RefusedWith(v, ErrorReply(HandleRequest(r, v).1.value))
  {
  }

  /** A refused request is answered with the status of what refused it, and with nothing else. */
  lemma RefusalDelivered(events: seq<Event>)
    requires WellFormed(events) && VerdictOf(events).Some? && !Accepts(VerdictOf(events).value)
    ensures RefusedWith(VerdictOf(events).value, Run(events, None).ctx.sent)
  {
    hide Run, DecisionOf, RequestBytes, HeaderTarget, VerdictOf, PhaseOf, Reference, HandleRequest, Accepts,
         RefusedWith, ErrorReply;
    SentIsReference(events, None);
    DecidedByVerdict(events);
    var whole := RequestBytes(events);
    HandleRefuses(Request(whole, |whole|, [], HeaderTarget(events), None, ""), VerdictOf(events).value);
    RefusedReference(events);
  }

  function Bodies(pieces: seq<Chunk>): seq<Bytes> {
    seq(|pieces|, i requires 0 <= i < |pieces| => pieces[i].body)
  }

  lemma {:induction false} FlatBodies(pieces: seq<Chunk>)
    ensures Flat(Bodies(pieces)) == Joined(pieces)
    decreases |pieces|
  {
    if pieces != [] {
      FlatBodies(pieces[1..]);
      assert Bodies(pieces)[1..] == Bodies(pieces[1..]);
    }
  }

  /** Adding the chunks of one more piece to chunks none of which is marked. */
  lemma OneMorePiece(cs: seq<Chunk>, out: Bytes, eos: bool)
    requires WithinLimit(cs) && MarkedLast(cs, false)
    ensures var all := cs + Chunks(out, eos);
            Joined(all) == Joined(cs) + out && WithinLimit(all) && MarkedLast(all, eos)
  {
    ChunksFaithful(out, eos);
    JoinedConcat(cs, Chunks(out, eos));
    hide Joined, Chunks;
  }

  /** Streaming forwards each piece renamed on its own, and only the last chunk of an ended body is marked. */
  lemma {:induction false} StreamedContent(pieces: seq<Chunk>, r: Request)
    requires forall i :: 0 <= i < |pieces| - 1 ==> !pieces[i].eos
    ensures var cs := ResponseChunks(StreamedReply(pieces, r));
            && Joined(cs) == Flat(RewriteEach(Bodies(pieces), r.target, r.incoming))
            && WithinLimit(cs) && MarkedLast(cs, Ended(pieces))
    decreases |pieces|
  {
    hide RewriteModelName, Chunks, WithinLimit, MarkedLast, Joined, ResponseChunks, Flat;
    if pieces == [] {
      NothingStreamed(r);
    } else {
      var n := |pieces| - 1;
      var out := RewriteModelName(pieces[n].body, r.target, r.incoming);
      StreamedContent(pieces[..n], r);
      StreamedReplyChunks(pieces, r);
      OneMorePiece(ResponseChunks(StreamedReply(pieces[..n], r)), out, pieces[n].eos);
      var each := RewriteEach(Bodies(pieces[..n]), r.target, r.incoming);
      assert RewriteEach(Bodies(pieces), r.target, r.incoming) == each + [out];
      FlatSnoc(each, out);
    }
  }

  lemma NothingStreamed(r: Request)
    ensures ResponseChunks(StreamedReply([], r)) == [] && Joined([]) == [] && WithinLimit([]) && MarkedLast([], false)
    ensures Flat(RewriteEach(Bodies([]), r.target, r.incoming)) == []
  {
  }

  lemma StreamedReplyChunks(pieces: seq<Chunk>, r: Request)
    requires pieces != []
    ensures var n := |pieces| - 1;
            ResponseChunks(StreamedReply(pieces, r)) == ResponseChunks(StreamedReply(pieces[..n], r))
              + Chunks(RewriteModelName(pieces[n].body, r.target, r.incoming), pieces[n].eos)
  {
    hide RewriteModelName, Chunks, ResponseChunks;
    var n := |pieces| - 1;
    var more := Chunks(RewriteModelName(pieces[n].body, r.target, r.incoming), pieces[n].eos);
    ChunksOfConcat(StreamedReply(pieces[..n], r), ResponseBodyMsgs(more));
    ChunksOfMsgs(more);
  }

  lemma {:induction false} EosOnlyLast(events: seq<Event>)
    requires WellFormed(events)
    ensures forall i :: 0 <= i < |Pieces(events)| - 1 ==> !Pieces(events)[i].eos
    decreases |events|
  {
    if events != [] {
      EosOnlyLast(Front(events));
      PhaseFactsHold(Front(events));
    }
  }

  /** A body in which no rename applies has no piece in which one does. */
  lemma UnrenamedPieces(pieces: seq<Bytes>, target: Bytes, incoming: Bytes)
    requires !RenameApplies(Flat(pieces), target, incoming)
    ensures !SomePieceRenamed(pieces, target, incoming)
  {
    hide Occurs;
    if k :| 0 <= k < |pieces| && RenameApplies(pieces[k], target, incoming) {
      if Occurs(CompactField(target), pieces[k]) {
        OccursInPiece(CompactField(target), pieces, k);
      } else {
        OccursInPiece(SpacedField(target), pieces, k);
      }
    }
  }

  /** What streaming makes of the pieces: unchanged, and renamed as the whole body would be, exactly when it can be. */
  ghost predicate StreamedOut(pieces: seq<Bytes>, out: Bytes, target: Bytes, incoming: Bytes) {
    && (out == Flat(pieces) <==> !SomePieceRenamed(pieces, target, incoming))
    && (!RenameApplies(Flat(pieces), target, incoming) ==> out == Flat(pieces))
    && (RenamedAsWhole(pieces, target) ==> out == RewriteModelName(Flat(pieces), target, incoming))
    && (QuoteFree(target) && QuoteFree(incoming) ==>
          (out == RewriteModelName(Flat(pieces), target, incoming)
           <==> !Requested(target, incoming) || RenamedAsWhole(pieces, target)))
  }

  lemma StreamedOutOf(pieces: seq<Bytes>, target: Bytes, incoming: Bytes)
    ensures StreamedOut(pieces, Flat(RewriteEach(pieces, target, incoming)), target, incoming)
  {
    hide RewriteEach, RewriteModelName, Flat, RenameApplies, SomePieceRenamed, RenamedAsWhole, QuoteFree, Requested;
    StreamedUnchangedIff(pieces, target, incoming);
    if !RenameApplies(Flat(pieces), target, incoming) {
      UnrenamedPieces(pieces, target, incoming);
    }
    if RenamedAsWhole(pieces, target) {
      PiecewiseRewrite(pieces, target, incoming);
    }
    if QuoteFree(target) && QuoteFree(incoming) {
      PiecewiseRewriteIff(pieces, target, incoming);
    }
  }

  lemma StreamedDelivery(pieces: seq<Chunk>, r: Request)
    requires forall i :: 0 <= i < |pieces| - 1 ==> !pieces[i].eos
    ensures var cs := ResponseChunks(StreamedReply(pieces, r));
            && StreamedOut(Bodies(pieces), Joined(cs), r.target, r.incoming) && Flat(Bodies(pieces)) == Joined(pieces)
            && WithinLimit(cs) && MarkedLast(cs, Ended(pieces))
  {
    hide Bodies, RewriteEach, Joined, StreamedReply, ResponseChunks, Flat, StreamedOut, Ended, MarkedLast, WithinLimit;
    FlatBodies(pieces);
    StreamedContent(pieces, r);
    StreamedOutOf(Bodies(pieces), r.target, r.incoming);
  }

  lemma BufferedDelivery(received: Bytes, eos: bool, r: Request)
    ensures var out := RewriteModelName(received, r.target, r.incoming);
            var cs := ResponseChunks(ResponseBodyMsgs(Chunks(out, eos)));
            && Joined(cs) == out && (out == received <==> !RenameApplies(received, r.target, r.incoming))
            && WithinLimit(cs) && MarkedLast(cs, eos)
  {
    var out := RewriteModelName(received, r.target, r.incoming);
    ChunksFaithful(out, eos);
    ChunksOfMsgs(Chunks(out, eos));
    RewriteIdentityIff(received, r.target, r.incoming);
    hide Joined, RewriteModelName, ResponseChunks, Chunks, RenameApplies;
  }

  /** What a whole response comes out as: the rename of what was received when it was buffered, and when streamed what
      the pieces allow. */
  ghost predicate ResponseOut(events: seq<Event>, names: Names, out: Bytes) {
    var received := Joined(Pieces(events));
    if IsStreamed(events) then
      Flat(Bodies(Pieces(events))) == received && StreamedOut(Bodies(Pieces(events)), out, names.target, names.incoming)
    else
      && out == RewriteModelName(received, names.target, names.incoming)
      && (out == received <==> !RenameApplies(received, names.target, names.incoming))
  }

  datatype Names = Names(target: Bytes, incoming: Bytes)

  /** The name that the rewrite header of the request asks for. */
  function AskedByHeader(events: seq<Event>): Bytes {
    if events != [] && events[0].RequestHeaders? && events[0].rewriteHeader.Some? then events[0].rewriteHeader.value
    else []
  }

  lemma {:induction false} HeaderTargetIs(events: seq<Event>)
    requires WellFormed(events)
    ensures events != [] ==> events[0].RequestHeaders? && PhaseOf(events) != Fresh
    ensures VerdictOf(events).Some? || PhaseOf(events) == InRequest ==>
              HeaderTarget(events) == AskedByHeader(events) && events != [] && !events[0].endOfStream
    decreases |events|
  {
    if |events| > 1 {
      HeaderTargetIs(Front(events));
      assert Front(events)[0] == events[0];
    } else if |events| == 1 {
      assert Front(events) == [] && Last(events) == events[0];
      assert PhaseOf(events) == NextPhase(Fresh, events[0]);
      assert HeaderTarget([]) == [] && VerdictOf([]) == None;
    }
  }

  /** The internal name and the client's: for a map with a model field the rewrite rule's target, else the one the
      header asks for, else the client's own; otherwise the client named none. */
  function ModelNames(events: seq<Event>): Names {
    match VerdictOf(events)
    case Some(Verdict(Some(MapPayload(Some(model))), rewrite, _, _, _, _, _, _)) =>
      var asked := AskedByHeader(events);
      Names(if rewrite.Some? then rewrite.value else if asked != [] then asked else model, model)
    case Some(_) => Names(AskedByHeader(events), [])
    case None => Names([], [])
  }

  lemma {:induction false} ForwardedUnnamed(events: seq<Event>)
    ensures var d := DecisionOf(events); d.Forwarded? ==> d.request.target == [] && d.request.incoming == []
    ensures DecisionOf(events).Scheduled? ==> VerdictOf(events).Some?
    decreases |events|
  {
    hide HandleRequest;
    if events != [] {
      ForwardedUnnamed(Front(events));
    }
  }

  lemma NamesDecided(events: seq<Event>)
    requires WellFormed(events) && Decided(DecisionOf(events))
    ensures ModelNames(events) == Names(DecisionOf(events).request.target, DecisionOf(events).request.incoming)
  {
    hide HandleRequest, DecisionOf, RequestBytes, HeaderTarget, VerdictOf, PhaseOf, AskedByHeader;
    DecidedByVerdict(events);
    ForwardedUnnamed(events);
    HeaderTargetIs(events);
    if VerdictOf(events).Some? {
      var whole := RequestBytes(events);
      HandleRequestOutcome(Request(whole, |whole|, [], HeaderTarget(events), None, ""), VerdictOf(events).value);
    }
  }

  /** The response reaches the client whole, in chunks within the limit and ended once: byte for byte exactly when no
      rename applies to what is renamed in one go; renamed as the whole body would be when it was buffered, and when
      streamed, for names without quotes, exactly when no replaced field is cut and no piece is left to the other
      spelling. */
  lemma ResponseDelivered(events: seq<Event>)
    requires WellFormed(events) && Decided(DecisionOf(events)) && HasResponse(events)
    requires IsStreamed(events) || Ended(Pieces(events)) || HasTrailers(events)
    ensures var cs := ResponseChunks(Run(events, None).ctx.sent);
            && ResponseOut(events, ModelNames(events), Joined(cs))
            && WithinLimit(cs) && MarkedLast(cs, Ended(Pieces(events)))
  {
    SentIsReference(events, None);
    ChunksOfReference(events);
    EosOnlyLast(events);
    NamesDecided(events);
    hide ModelNames, Run, DecisionOf, Pieces, HasResponse, HasTrailers, Joined, Chunks, RewriteModelName, StreamedReply,
         Reference, ResponseChunks, Flat, PhaseOf, RenameApplies, StreamedOut, Ended, IsStreamed, MarkedLast,
         WithinLimit;
    var r, pieces := DecisionOf(events).request, Pieces(events);
    StreamedDelivery(pieces, r);
    BufferedDelivery(Joined(pieces), Ended(pieces), r);
  }
}
