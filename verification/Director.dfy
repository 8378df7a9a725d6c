// The outcome of orchestrating one request (pkg/epp/requestcontrol/director.go) and the
// mapping of its errors to immediate replies (pkg/common/error/error.go).
module Director {
  import opened Wrappers
  import opened Sequences
  import opened Chunking

  datatype ErrorCode =
    | Unknown | BadRequest | Unauthorized | Forbidden | NotFound
    | Internal | ServiceUnavailable | ModelServerError | ResourceExhausted

  /** The HTTP status of an immediate reply; None where the error is returned to the stream instead. */
  function HttpStatus(code: ErrorCode): Option<nat> {
    match code
    case BadRequest => Some(400)
    case Unauthorized => Some(401)
    case Forbidden => Some(403)
    case NotFound => Some(404)
    case ResourceExhausted => Some(429)
    case Internal => Some(500)
    case ServiceUnavailable => Some(503)
    case Unknown => None
    case ModelServerError => None
  }

  /** What the request parser made of the body; the map payload carries its "model" field, if a string. */
  datatype Payload = ProtoPayload | RawPayload | MapPayload(model: Option<Bytes>) | OtherPayload

  /** What the scheduler returned: its primary profile names at least one endpoint when it picked. */
  datatype Schedule = ScheduleFailed | NoProfiles | Picked(first: string, others: seq<string>)

  /** The answers of the parts the director consults, in the order it consults them. */
  datatype Verdict = Verdict(
    parsed: Option<Payload>,       // None: the parser failed
    rewrite: Option<Bytes>,        // the target drawn from the matching rewrite rule, if one matches
    marshalled: Option<Bytes>,     // the mutated map as bytes; None: marshalling failed
    admission: Option<ErrorCode>,  // the admission controller's error, if any
    candidates: nat,               // how many endpoint candidates were located
    pluginsAdmit: bool,            // whether every admission plugin admitted
    schedule: Schedule,
    stream: bool)                  // the parsed body asks for a streamed response

  /** The part of the request context that the director reads and writes. */
  datatype Request = Request(
    rawBody: Bytes, size: nat, incoming: Bytes, target: Bytes, pod: Option<string>, endpoint: string)

  function JoinEndpoints(first: string, others: seq<string>): string
    decreases |others|
  {
    if others == [] then first else first + "," + JoinEndpoints(others[0], others[1..])
  }

  function MutateModel(r: Request, model: Bytes, v: Verdict): Request {
    var named := r.(incoming := model, target := if r.target == [] then model else r.target);
    if v.rewrite.Some? then named.(target := v.rewrite.value) else named
  }

  function ProcessRequestBody(r: Request, v: Verdict): (Request, Option<ErrorCode>) {
    if v.parsed.None? then (r, Some(BadRequest))
    else
      match v.parsed.value
      case ProtoPayload => (r.(size := |r.rawBody|), None)
      case RawPayload => (r.(size := |r.rawBody|), None)
      case OtherPayload => (r, Some(BadRequest))
      case MapPayload(model) =>
        if model.None? then (r, Some(BadRequest))
        else
          var m := MutateModel(r, model.value, v);
          if v.marshalled.None? then (m, Some(Internal))
          else (m.(rawBody := v.marshalled.value, size := |v.marshalled.value|), None)
  }

  function HandleRequest(r: Request, v: Verdict): (Request, Option<ErrorCode>) {
    var (q, err) := ProcessRequestBody(r, v);
    if err.Some? then (q, err)
    else if v.admission.Some? then (q, v.admission)
    else if v.candidates == 0 then (q, Some(ServiceUnavailable))
    else if !v.pluginsAdmit then (q, Some(Internal))
    else
      match v.schedule
      case ScheduleFailed => (q, Some(ResourceExhausted))
      case NoProfiles => (q, Some(Internal))
      case Picked(first, others) => (q.(pod := Some(first), endpoint := JoinEndpoints(first, others)), None)
  }

  /** Every consulted part agreed. */
  predicate Accepts(v: Verdict) {
    && v.parsed.Some? && !v.parsed.value.OtherPayload?
    && (v.parsed.value.MapPayload? ==> v.parsed.value.model.Some? && v.marshalled.Some?)
    && v.admission.None? && v.candidates > 0 && v.pluginsAdmit && v.schedule.Picked?
  }

  predicate CommaFree(endpoints: seq<string>) { forall i :: 0 <= i < |endpoints| ==> ',' !in endpoints[i] }

  /** Cut at its commas, the announced destination is the picked endpoints in order. */
  lemma {:induction false} JoinedEndpointsSplit(first: string, others: seq<string>)
    requires CommaFree([first] + others)
    ensures Split(JoinEndpoints(first, others), ',') == [first] + others
    decreases |others|
  {
    assert ([first] + others)[0] == first;
    SplitFree(first, ',');
    if others != [] {
      assert forall i :: 0 <= i < |others| ==> others[i] == ([first] + others)[i + 1];
      assert others == [others[0]] + others[1..];
      JoinedEndpointsSplit(others[0], others[1..]);
      SplitConcat(first, JoinEndpoints(others[0], others[1..]), ',');
      assert [','] == ",";
    }
  }

  /** The body that is to be sent on: the repackaged map, or what was received. */
  function BodyToSend(received: Bytes, v: Verdict): Bytes
    requires Accepts(v)
  {
    if v.parsed.value.MapPayload? then v.marshalled.value else received
  }

  /** A pod is scheduled exactly when the request is handled without error: the first one picked, all those picked being
      announced in order. The announced size is then that of the body to be sent. */
  lemma HandleRequestOutcome(r: Request, v: Verdict)
    requires r.pod.None?
    ensures var (q, err) := HandleRequest(r, v);
            && (err.None? <==> Accepts(v))
            && (q.pod.Some? <==> Accepts(v))
            && (Accepts(v) ==> q.pod == Some(v.schedule.first))
            && (Accepts(v) && CommaFree([v.schedule.first] + v.schedule.others) ==>
                  Split(q.endpoint, ',') == [v.schedule.first] + v.schedule.others)
            && (Accepts(v) ==> q.rawBody == BodyToSend(r.rawBody, v) && q.size == |q.rawBody|)
            && (Accepts(v) && v.parsed.value.MapPayload? ==>
                  && v.parsed.value.model.value == q.incoming
                  && q.target == (if v.rewrite.Some? then v.rewrite.value
                                  else if r.target != [] then r.target else q.incoming))
            && (Accepts(v) && !v.parsed.value.MapPayload? ==> q.incoming == r.incoming && q.target == r.target)
  {
    if Accepts(v) && CommaFree([v.schedule.first] + v.schedule.others) {
      JoinedEndpointsSplit(v.schedule.first, v.schedule.others);
    }
  }
}
