// What a latency prediction answers, in terms of the request's own fields and the models that serve its queue length
// (latencypredictor/prediction_server.py).
module PredictionAnswers {
  import opened Wrappers
  import opened Prediction

  // ---- What a model is shown ----

  /** The fields both models are shown; the queue columns may be dropped. */
  predicate Shows(x: Features, kv: real, inputTokens: real, waiting: real, running: real, dropped: bool) {
    && x.kv == kv && x.inputTokens == inputTokens && x.running == running
    && (x.queued.None? <==> dropped)
    && (x.queued.Some? ==> (x.queued.value.0 <==> waiting > 0.0) && x.queued.value.1 == waiting)
  }

  /** The TTFT model is shown the prefix score, the tokens it leaves to prefill, and its quarter. */
  predicate ShowsTtft(x: Features, inputTokens: real, prefix: real) {
    && x.own.TtftOwn? && x.own.prefix == prefix && x.own.effectiveTokens == inputTokens - prefix * inputTokens
    && x.own.bucket == if prefix < 0.25 then 0 else if prefix < 0.5 then 1 else if prefix < 0.75 then 2 else 3
  }

  predicate ShowsTpot(x: Features, generated: real) { x.own.TpotOwn? && x.own.generated == generated }

  /** A known pod type as it is, a missing one as the empty type, an unknown one not at all. */
  predicate ShowsPod(x: Features, pod: Option<string>) {
    match pod
    case Some(name) => x.pod == if name == "" || name == "prefill" || name == "decode" then Some(name) else None
    case None => x.pod == Some("")
  }

  function TypeGiven(pod: PodType): Option<string> { if pod.Named? then Some(pod.name) else None }

  predicate ShowsInFlight(cfg: Config, x: Features, prefill: real, decode: real) {
    x.inFlight == if cfg.inFlightEnabled then Some((prefill, decode)) else None
  }

  // ---- The answers ----

  /** The models that serve the queue length answer: without the ensemble the two single models, with it those of the
      no-queue regime for an empty queue and those of the queued regime otherwise. */
  predicate Answers(m: Loaded, waiting: real, x: Features, y: Features, answer: (real, real)) {
    if m.gates.None? then answer == (m.ttft(x), m.tpot(y))
    else if waiting == 0.0 then answer == (m.gates.value.noqueueTtft(x), m.gates.value.noqueueTpot(y))
    else answer == (m.gates.value.queuedTtft(x), m.gates.value.queuedTpot(y))
  }

  /** The queue columns are dropped exactly for an ensemble and an empty queue. */
  predicate Dropped(m: Loaded, waiting: real) { m.gates.Some? && waiting == 0.0 }

  predicate RowShown(cfg: Config, m: Loaded, row: Row, prefill: real, decode: real, x: Features, y: Features) {
    && Shows(x, row.kv, row.inputTokens, row.waiting, row.running, Dropped(m, row.waiting))
    && Shows(y, row.kv, row.inputTokens, row.waiting, row.running, Dropped(m, row.waiting))
    && ShowsTtft(x, row.inputTokens, row.prefix) && ShowsTpot(y, row.generated)
    && ShowsPod(x, TypeGiven(row.pod)) && ShowsPod(y, TypeGiven(row.pod))
    && ShowsInFlight(cfg, x, prefill, decode) && ShowsInFlight(cfg, y, prefill, decode)
  }

  lemma QuarterOf(prefix: real)
    ensures Bucket(prefix) == if prefix < 0.25 then 0 else if prefix < 0.5 then 1 else if prefix < 0.75 then 2 else 3
  {
  }

  lemma RowAnswer(cfg: Config, m: Loaded, row: Row, hasInFlight: bool) returns (x: Features, y: Features)
    ensures RowShown(cfg, m, row, if hasInFlight then row.prefillInFlight else 0.0,
                     if hasInFlight then row.decodeInFlight else 0.0, x, y)
    ensures Answers(m, row.waiting, x, y, PredictRow(cfg, m, row, hasInFlight))
  {
    hide Bucket;
    QuarterOf(row.prefix);
    var regime := Serving(m, row.waiting).2;
    x := FeaturesOf(cfg, row, Category(row.pod), hasInFlight, Ttft, regime);
    y := FeaturesOf(cfg, row, Category(row.pod), hasInFlight, Tpot, regime);
  }

  /** A number the request gives. */
  function Given(f: RequestDict, field: Field): real
    requires Valid(f)
  {
    ValidHasAll(f, field);
    f.values[field].x
  }

  ghost predicate DictAnswered(cfg: Config, m: Loaded, f: RequestDict, answer: (real, real))
    requires Valid(f)
  {
    var waiting, tokens := Given(f, NumRequestWaiting), Given(f, InputTokenLength);
    var kv, running := Given(f, KvCachePercentage), Given(f, NumRequestRunning);
    exists x, y ::
      && Answers(m, waiting, x, y, answer)
      && Shows(x, kv, tokens, waiting, running, Dropped(m, waiting))
      && Shows(y, kv, tokens, waiting, running, Dropped(m, waiting))
      && ShowsTtft(x, tokens, Given(f, PrefixCacheScore)) && ShowsTpot(y, Given(f, NumTokensGenerated))
      && ShowsPod(x, TypeGiven(f.pod)) && ShowsPod(y, TypeGiven(f.pod))
      && ShowsInFlight(cfg, x, 0.0, 0.0) && ShowsInFlight(cfg, y, 0.0, 0.0)
  }

  /** A single prediction: refused when a required field is missing or no number, or no models are loaded; else the
      answer of the models that serve the queue length, shown the request's own fields. */
  lemma PredictionAnswered(cfg: Config, server: Option<Loaded>, f: RequestDict)
    ensures match PredictOf(cfg, server, f)
            case Done(answer) => server.Some? && Valid(f) && DictAnswered(cfg, server.value, f, answer)
            case Failed(status) =>
              if status == 400 then exists field :: !(field in f.values && f.values[field].Num?)
              else status == 503 && server.None? && forall field :: field in f.values && f.values[field].Num?
  {
    if Valid(f) && server.None? {
      forall field
        ensures field in f.values && f.values[field].Num?
      {
        ValidHasAll(f, field);
      }
    } else if Valid(f) {
      var x, y := RowAnswer(cfg, server.value, RowOf(f), false);
      assert DictAnswered(cfg, server.value, f, PredictOf(cfg, server, f).value);
    }
  }

  ghost predicate RequestAnswered(cfg: Config, m: Loaded, q: PredictionRequest, answer: (real, real)) {
    var waiting, tokens := q.waiting as real, q.inputTokens as real;
    exists x, y ::
      && Answers(m, waiting, x, y, answer)
      && Shows(x, q.kv, tokens, waiting, q.running as real, Dropped(m, waiting))
      && Shows(y, q.kv, tokens, waiting, q.running as real, Dropped(m, waiting))
      && ShowsTtft(x, tokens, q.prefix) && ShowsTpot(y, q.generated as real)
      && ShowsPod(x, q.podType) && ShowsPod(y, q.podType)
      && ShowsInFlight(cfg, x, q.prefillInFlight as real, q.decodeInFlight as real)
      && ShowsInFlight(cfg, y, q.prefillInFlight as real, q.decodeInFlight as real)
  }

  /** The fast path: the same for every request of the list, shown its tokens in flight too. */
  lemma FastAnswered(cfg: Config, m: Loaded, reqs: seq<PredictionRequest>, i: nat)
    requires i < |reqs|
    ensures FastOf(cfg, Some(m), reqs).Done? && |FastOf(cfg, Some(m), reqs).value| == |reqs|
    ensures RequestAnswered(cfg, m, reqs[i], FastOf(cfg, Some(m), reqs).value[i])
  {
    var x, y := RowAnswer(cfg, m, FastRow(cfg, reqs[i]), cfg.inFlightEnabled);
    assert RequestAnswered(cfg, m, reqs[i], PredictRow(cfg, m, FastRow(cfg, reqs[i]), cfg.inFlightEnabled));
  }
}
