// Single and bulk latency prediction (latencypredictor/prediction_server.py), for models that predict row by row.
module Prediction {
  import opened Wrappers

  // ---- Requests and rows ----

  datatype Field = KvCachePercentage | InputTokenLength | NumRequestWaiting | NumRequestRunning
    | NumTokensGenerated | PrefixCacheScore

  const REQUIRED := [KvCachePercentage, InputTokenLength, NumRequestWaiting, NumRequestRunning,
                     NumTokensGenerated, PrefixCacheScore]

  datatype Value = Num(x: real) | NotANumber

  datatype PodType = Absent | Null | Named(name: string)

  datatype RequestDict = RequestDict(values: map<Field, Value>, pod: PodType)

  predicate Usable(f: RequestDict, field: Field) { field in f.values && f.values[field].Num? }

  predicate Valid(f: RequestDict) { forall i :: 0 <= i < |REQUIRED| ==> Usable(f, REQUIRED[i]) }

  lemma ValidHasAll(f: RequestDict, field: Field)
    requires Valid(f)
    ensures Usable(f, field)
  {
    assert field in REQUIRED;
  }

  /** A row of a data frame. */
  datatype Row = Row(kv: real, inputTokens: real, waiting: real, running: real, generated: real, prefix: real,
                     pod: PodType, prefillInFlight: real, decodeInFlight: real)

  function RowOf(f: RequestDict): Row
    requires Valid(f)
  {
    ValidHasAll(f, KvCachePercentage); ValidHasAll(f, InputTokenLength); ValidHasAll(f, NumRequestWaiting);
    ValidHasAll(f, NumRequestRunning); ValidHasAll(f, NumTokensGenerated); ValidHasAll(f, PrefixCacheScore);
    Row(f.values[KvCachePercentage].x, f.values[InputTokenLength].x, f.values[NumRequestWaiting].x,
        f.values[NumRequestRunning].x, f.values[NumTokensGenerated].x, f.values[PrefixCacheScore].x, f.pod, 0.0, 0.0)
  }

  // ---- Features ----

  datatype Target = Ttft | Tpot
  datatype Regime = Single | NoQueue | Queued

  datatype Own = TtftOwn(prefix: real, effectiveTokens: real, bucket: int) | TpotOwn(generated: real)

  /** What a model sees of a row; the queue columns are dropped in the no-queue regime. */
  datatype Features = Features(queued: Option<(bool, real)>, kv: real, inputTokens: real, running: real,
                               inFlight: Option<(real, real)>, own: Own, pod: Option<string>)

  const PREFIX_BUCKETS := 4

  function Clip(x: real): real { if x < 0.0 then 0.0 else if x > 1.0 then 1.0 else x }

  function Bucket(prefix: real): int {
    var b := (Clip(prefix) * (PREFIX_BUCKETS as real)).Floor;
    if b > PREFIX_BUCKETS - 1 then PREFIX_BUCKETS - 1 else b
  }

  /** The category of a pod type: missing ones are the empty type, unknown ones have none. */
  function Category(pod: PodType): Option<string> {
    match pod
    case Named(name) => if name in {"", "prefill", "decode"} then Some(name) else None
    case _ => Some("")
  }

  /** A data frame: its rows, and whether it has the pod-type and the tokens-in-flight columns. */
  datatype Frame = Frame(rows: seq<Row>, podColumn: bool, inFlightColumns: bool)

  datatype Config = Config(inFlightEnabled: bool)

  function FeaturesOf(cfg: Config, row: Row, pod: Option<string>, hasInFlight: bool, target: Target, regime: Regime)
    : Features
  {
    Features(
      if regime.NoQueue? then None else Some((row.waiting > 0.0, row.waiting)),
      row.kv, row.inputTokens, row.running,
      if !cfg.inFlightEnabled then None
      else if hasInFlight then Some((row.prefillInFlight, row.decodeInFlight)) else Some((0.0, 0.0)),
      if target.Ttft? then TtftOwn(row.prefix, (1.0 - row.prefix) * row.inputTokens, Bucket(row.prefix))
      else TpotOwn(row.generated),
      pod)
  }

  /** The engineered columns of a frame. */
  function Prepared(cfg: Config, df: Frame, target: Target, regime: Regime): seq<Features> {
    seq(|df.rows|, i requires 0 <= i < |df.rows| =>
      FeaturesOf(cfg, df.rows[i], if df.podColumn then Category(df.rows[i].pod) else Some(""),
                 df.inFlightColumns, target, regime))
  }

  type Model = Features -> real

  function PredictFrame(model: Model, features: seq<Features>): (r: seq<real>)
    ensures |r| == |features|
  {
    seq(|features|, i requires 0 <= i < |features| => model(features[i]))
  }

  // ---- Models ----

  datatype Gates = Gates(noqueueTtft: Model, noqueueTpot: Model, queuedTtft: Model, queuedTpot: Model)

  /** One load of the models; `gates` when the ensemble is active. */
  datatype Loaded = Loaded(ttft: Model, tpot: Model, gates: Option<Gates>)

  datatype Outcome<T> = Done(value: T) | Failed(status: int)

  /** The models and the regime that serve a queue length. */
  function Serving(m: Loaded, waiting: real): (Model, Model, Regime) {
    if m.gates.None? then (m.ttft, m.tpot, Single)
    else if waiting == 0.0 then (m.gates.value.noqueueTtft, m.gates.value.noqueueTpot, NoQueue)
    else (m.gates.value.queuedTtft, m.gates.value.queuedTpot, Queued)
  }

  function RowWith(cfg: Config, row: Row, hasInFlight: bool, ttft: Model, tpot: Model, regime: Regime): (real, real) {
    (ttft(FeaturesOf(cfg, row, Category(row.pod), hasInFlight, Ttft, regime)),
     tpot(FeaturesOf(cfg, row, Category(row.pod), hasInFlight, Tpot, regime)))
  }

  function PredictRow(cfg: Config, m: Loaded, row: Row, hasInFlight: bool): (real, real) {
    var (ttft, tpot, regime) := Serving(m, row.waiting);
    RowWith(cfg, row, hasInFlight, ttft, tpot, regime)
  }

  /** What a single prediction answers; None stands for models not yet loaded. */
  function PredictOf(cfg: Config, server: Option<Loaded>, f: RequestDict): Outcome<(real, real)> {
    if !Valid(f) then Failed(400)
    else if server.None? then Failed(503)
    else Done(PredictRow(cfg, server.value, RowOf(f), false))
  }

  method CheckFields(f: RequestDict) returns (ok: bool)
    ensures ok == Valid(f)
  {
    for i := 0 to |REQUIRED|
      invariant forall j :: 0 <= j < i ==> Usable(f, REQUIRED[j])
    {
      if REQUIRED[i] !in f.values || !f.values[REQUIRED[i]].Num? {
        return false;
      }
    }
    return true;
  }

  method Predict(cfg: Config, server: Option<Loaded>, f: RequestDict) returns (r: Outcome<(real, real)>)
    ensures r == PredictOf(cfg, server, f)
  {
    var ok := CheckFields(f);
    if !ok {
      return Failed(400);
    }
    if server.None? {
      return Failed(503);
    }
    var row := RowOf(f);
    var (ttftModel, tpotModel, regime) := Serving(server.value, row.waiting);
    var df := Frame([row], !row.pod.Absent?, false);
    var ttft := PredictFrame(ttftModel, Prepared(cfg, df, Ttft, regime));
    var tpot := PredictFrame(tpotModel, Prepared(cfg, df, Tpot, regime));
    return Done((ttft[0], tpot[0]));
  }

  // ---- Batches ----

  /** Without the pod-type column every row is of the empty type. */
  predicate Sound(df: Frame) {
    !df.podColumn ==> forall i :: 0 <= i < |df.rows| ==> Category(df.rows[i].pod) == Some("")
  }

  /** What the batch leaves for a row: nothing when its queue length is negative and the ensemble is on. */
  function BatchRow(cfg: Config, m: Loaded, row: Row, hasInFlight: bool): (real, real) {
    if m.gates.Some? && row.waiting < 0.0 then (0.0, 0.0) else PredictRow(cfg, m, row, hasInFlight)
  }

  method IndicesWhere(rows: seq<Row>, p: Row -> bool) returns (idx: seq<nat>)
    ensures forall j :: 0 <= j < |idx| ==> idx[j] < |rows| && p(rows[idx[j]])
    ensures forall i :: 0 <= i < |rows| && p(rows[i]) ==> i in idx
    ensures Ascending(idx)
  {
    idx := [];
    for i := 0 to |rows|
      invariant forall j :: 0 <= j < |idx| ==> idx[j] < i && p(rows[idx[j]])
      invariant forall k :: 0 <= k < i && p(rows[k]) ==> k in idx
      invariant Ascending(idx)
    {
      if p(rows[i]) {
        idx := idx + [i];
      }
    }
  }

  predicate Ascending(idx: seq<nat>) { forall i, j :: 0 <= i < j < |idx| ==> idx[i] < idx[j] }

  /** Puts the values at their indices. */
  method Scatter(a: array<real>, idx: seq<nat>, values: seq<real>)
    requires |values| == |idx| && Ascending(idx) && forall j :: 0 <= j < |idx| ==> idx[j] < a.Length
    modifies a
    ensures forall j :: 0 <= j < |idx| ==> a[idx[j]] == values[j]
    ensures forall i :: 0 <= i < a.Length && i !in idx ==> a[i] == old(a[i])
  {
    for j := 0 to |idx|
      invariant forall k :: 0 <= k < j ==> a[idx[k]] == values[k]
      invariant forall i :: 0 <= i < a.Length && i !in idx[..j] ==> a[i] == old(a[i])
    {
      a[idx[j]] := values[j];
    }
    assert idx[..|idx|] == idx;
  }

  predicate HasPods(rows: seq<Row>) { exists i :: 0 <= i < |rows| && !rows[i].pod.Absent? }

  /** The rows at the given indices, as a frame of their own; a rebuilt one has the pod-type column only if one of its
      own rows has a pod type. */
  function SubFrame(df: Frame, idx: seq<nat>, rebuilt: bool): (r: Frame)
    requires forall j :: 0 <= j < |idx| ==> idx[j] < |df.rows|
    ensures |r.rows| == |idx|
  {
    var rows := seq(|idx|, j requires 0 <= j < |idx| => df.rows[idx[j]]);
    Frame(rows, if rebuilt then HasPods(rows) else df.podColumn, df.inFlightColumns)
  }

  /** One regime of a batch: the rows at `idx` are predicted together and scattered. */
  method PredictRegime(cfg: Config, df: Frame, rebuilt: bool, idx: seq<nat>, regime: Regime,
                       ttftModel: Model, tpotModel: Model, ttft: array<real>, tpot: array<real>)
    requires Sound(df) && Ascending(idx) && forall j :: 0 <= j < |idx| ==> idx[j] < |df.rows|
    requires ttft.Length == tpot.Length == |df.rows| && ttft != tpot
    modifies ttft, tpot
    ensures forall i: nat :: i in idx ==>
              i < |df.rows| && (ttft[i], tpot[i])
                == RowWith(cfg, df.rows[i], df.inFlightColumns, ttftModel, tpotModel, regime)
    ensures forall i :: 0 <= i < |df.rows| && i !in idx ==> ttft[i] == old(ttft[i]) && tpot[i] == old(tpot[i])
  {
    if |idx| == 0 {
      return;
    }
    var sub := SubFrame(df, idx, rebuilt);
    var x := PredictFrame(ttftModel, Prepared(cfg, sub, Ttft, regime));
    var y := PredictFrame(tpotModel, Prepared(cfg, sub, Tpot, regime));
    assert forall j :: 0 <= j < |idx| ==>
        (x[j], y[j]) == RowWith(cfg, df.rows[idx[j]], df.inFlightColumns, ttftModel, tpotModel, regime);
    Scatter(ttft, idx, x);
    Scatter(tpot, idx, y);
  }

  function Zip(x: seq<real>, y: seq<real>): (r: seq<(real, real)>)
    requires |x| == |y|
    ensures |r| == |x|
  {
    seq(|x|, i requires 0 <= i < |x| => (x[i], y[i]))
  }

  function BatchRows(cfg: Config, m: Loaded, rows: seq<Row>, hasInFlight: bool): (r: seq<(real, real)>)
    ensures |r| == |rows|
  {
    seq(|rows|, i requires 0 <= i < |rows| => BatchRow(cfg, m, rows[i], hasInFlight))
  }

  /** A whole frame: split by queue regime, predicted apart, scattered back; or predicted in one go. */
  method PredictRows(cfg: Config, m: Loaded, df: Frame, rebuilt: bool) returns (r: seq<(real, real)>)
    requires Sound(df)
    ensures r == BatchRows(cfg, m, df.rows, df.inFlightColumns)
  {
    if m.gates.None? {
      var x := PredictFrame(m.ttft, Prepared(cfg, df, Ttft, Single));
      var y := PredictFrame(m.tpot, Prepared(cfg, df, Tpot, Single));
      return Zip(x, y);
    }
    var g := m.gates.value;
    var ttft := new real[|df.rows|](_ => 0.0);
    var tpot := new real[|df.rows|](_ => 0.0);
    var noqueueIdx := IndicesWhere(df.rows, (row: Row) => row.waiting == 0.0);
    var queuedIdx := IndicesWhere(df.rows, (row: Row) => row.waiting > 0.0);
    PredictRegime(cfg, df, rebuilt, noqueueIdx, NoQueue, g.noqueueTtft, g.noqueueTpot, ttft, tpot);
    PredictRegime(cfg, df, rebuilt, queuedIdx, Queued, g.queuedTtft, g.queuedTpot, ttft, tpot);
    return Zip(ttft[..], tpot[..]);
  }

  /** What a batch of dictionaries answers. */
  function BatchOf(cfg: Config, server: Option<Loaded>, list: seq<RequestDict>): Outcome<seq<(real, real)>> {
    if exists i :: 0 <= i < |list| && !Valid(list[i]) then Failed(400)
    else if server.None? then Failed(503)
    else if list == [] && server.value.gates.None? then Failed(500)
    else Done(BatchRows(cfg, server.value, RowsOf(list), false))
  }

  function RowsOf(list: seq<RequestDict>): (r: seq<Row>)
    requires forall i :: 0 <= i < |list| ==> Valid(list[i])
    ensures |r| == |list|
  {
    seq(|list|, i requires 0 <= i < |list| => RowOf(list[i]))
  }

  method PredictBatch(cfg: Config, server: Option<Loaded>, list: seq<RequestDict>)
    returns (r: Outcome<seq<(real, real)>>)
    ensures r == BatchOf(cfg, server, list)
  {
    for i := 0 to |list|
      invariant forall j :: 0 <= j < i ==> Valid(list[j])
    {
      var ok := CheckFields(list[i]);
      if !ok {
        return Failed(400);
      }
    }
    if server.None? {
      return Failed(503);
    }
    if |list| == 0 && server.value.gates.None? {
      return Failed(500);
    }
    var rows := RowsOf(list);
    var predictions := PredictRows(cfg, server.value, Frame(rows, HasPods(rows), false), true);
    return Done(predictions);
  }

  /** A batch is the single predictions in order, save that an ensemble leaves a row of negative queue length at zero.
      It fails when a single one would, a bad row first, and when it is empty without an ensemble. */
  lemma BatchIsMap(cfg: Config, server: Option<Loaded>, list: seq<RequestDict>)
    ensures match BatchOf(cfg, server, list)
            case Done(ys) =>
              && server.Some? && |ys| == |list| && (list != [] || server.value.gates.Some?)
              && forall i :: 0 <= i < |list| ==>
                   && Valid(list[i])
                   && if server.value.gates.Some? && RowOf(list[i]).waiting < 0.0 then ys[i] == (0.0, 0.0)
                      else PredictOf(cfg, server, list[i]) == Done(ys[i])
            case Failed(status) =>
              if status == 400 then exists i :: 0 <= i < |list| && PredictOf(cfg, server, list[i]) == Failed(400)
              else if status == 503 then
                server.None? && forall i :: 0 <= i < |list| ==> PredictOf(cfg, server, list[i]) == Failed(503)
              else status == 500 && server.Some? && server.value.gates.None? && list == []
  {
    hide Valid, PredictRow;
  }

  /** The batch gives the row its single prediction. */
  predicate RowAgrees(cfg: Config, m: Loaded, list: seq<RequestDict>, i: nat)
    requires i < |list|
  {
    var batch := BatchOf(cfg, Some(m), list);
    batch.Done? && |batch.value| == |list| && PredictOf(cfg, Some(m), list[i]) == Done(batch.value[i])
  }

  /** An ensemble that predicts one throughout. */
  function Ones(): Loaded {
    var one: Model := (f: Features) => 1.0;
    Loaded(one, one, Some(Gates(one, one, one, one)))
  }

  lemma NegativeLeftAtZero(cfg: Config, list: seq<RequestDict>, i: nat)
    requires i < |list| && (forall j :: 0 <= j < |list| ==> Valid(list[j])) && RowOf(list[i]).waiting < 0.0
    ensures BatchOf(cfg, Some(Ones()), list).Done? && |BatchOf(cfg, Some(Ones()), list).value| == |list|
    ensures BatchOf(cfg, Some(Ones()), list).value[i] == (0.0, 0.0)
    ensures PredictOf(cfg, Some(Ones()), list[i]) == Done((1.0, 1.0))
  {
    hide Valid;
  }

  /** For valid rows, a batch gives row `i` its single prediction under every ensemble if and only if the row's queue
      length is not negative. */
  lemma BatchRowIff(cfg: Config, list: seq<RequestDict>, i: nat)
    requires i < |list| && forall j :: 0 <= j < |list| ==> Valid(list[j])
    ensures (forall m: Loaded :: m.gates.Some? ==> RowAgrees(cfg, m, list, i)) <==> RowOf(list[i]).waiting >= 0.0
  {
    hide Valid, PredictRow;
    if RowOf(list[i]).waiting < 0.0 {
      NegativeLeftAtZero(cfg, list, i);
      assert !RowAgrees(cfg, Ones(), list, i);
    }
  }

  /** A row with a queue length of minus one, in a batch by itself. */
  lemma NegativeQueueFails(cfg: Config)
    ensures var row := RequestDict(map[KvCachePercentage := Num(0.0), InputTokenLength := Num(0.0),
                                       NumRequestWaiting := Num(-1.0), NumRequestRunning := Num(0.0),
                                       NumTokensGenerated := Num(0.0), PrefixCacheScore := Num(0.0)], Absent);
            Valid(row) && !RowAgrees(cfg, Ones(), [row], 0)
  {
    var row := RequestDict(map[KvCachePercentage := Num(0.0), InputTokenLength := Num(0.0),
                               NumRequestWaiting := Num(-1.0), NumRequestRunning := Num(0.0),
                               NumTokensGenerated := Num(0.0), PrefixCacheScore := Num(0.0)], Absent);
    NegativeLeftAtZero(cfg, [row], 0);
  }

  // ---- The fast path ----

  /** A validated request object. */
  datatype PredictionRequest = PredictionRequest(kv: real, inputTokens: nat, waiting: nat, running: nat, generated: nat,
                                                 prefix: real, podType: Option<string>,
                                                 prefillInFlight: nat, decodeInFlight: nat)

  function PodOf(q: PredictionRequest): PodType { if q.podType.None? then Null else Named(q.podType.value) }

  function FastRow(cfg: Config, q: PredictionRequest): Row {
    Row(q.kv, q.inputTokens as real, q.waiting as real, q.running as real, q.generated as real, q.prefix, PodOf(q),
        q.prefillInFlight as real, q.decodeInFlight as real)
  }

  /** The request as a dictionary. */
  function DictOf(q: PredictionRequest): (f: RequestDict)
    ensures Valid(f)
  {
    RequestDict(map[KvCachePercentage := Num(q.kv), InputTokenLength := Num(q.inputTokens as real),
                    NumRequestWaiting := Num(q.waiting as real), NumRequestRunning := Num(q.running as real),
                    NumTokensGenerated := Num(q.generated as real), PrefixCacheScore := Num(q.prefix)], PodOf(q))
  }

  function FastRows(cfg: Config, reqs: seq<PredictionRequest>): (r: seq<Row>)
    ensures |r| == |reqs|
  {
    seq(|reqs|, i requires 0 <= i < |reqs| => FastRow(cfg, reqs[i]))
  }

  function FastOf(cfg: Config, server: Option<Loaded>, reqs: seq<PredictionRequest>): Outcome<seq<(real, real)>> {
    if server.None? then Failed(503)
    else Done(BatchRows(cfg, server.value, FastRows(cfg, reqs), cfg.inFlightEnabled))
  }

  method PredictBatchFast(cfg: Config, server: Option<Loaded>, reqs: seq<PredictionRequest>)
    returns (r: Outcome<seq<(real, real)>>)
    requires reqs != []
    ensures r == FastOf(cfg, server, reqs)
  {
    if server.None? {
      return Failed(503);
    }
    var rows := FastRows(cfg, reqs);
    var podColumn := exists i :: 0 <= i < |reqs| && reqs[i].podType.Some? && reqs[i].podType.value != "";
    assert forall i :: 0 <= i < |rows| ==> rows[i].pod == PodOf(reqs[i]);
    var predictions := PredictRows(cfg, server.value, Frame(rows, podColumn, cfg.inFlightEnabled), false);
    return Done(predictions);
  }

  predicate NoneInFlight(q: PredictionRequest) { q.prefillInFlight == 0 && q.decodeInFlight == 0 }

  /** A row without tokens in flight is predicted alike on both paths. */
  lemma FastRowAgrees(cfg: Config, m: Loaded, q: PredictionRequest)
    requires !cfg.inFlightEnabled || NoneInFlight(q)
    ensures BatchRow(cfg, m, FastRow(cfg, q), cfg.inFlightEnabled) == PredictRow(cfg, m, RowOf(DictOf(q)), false)
  {
    hide FeaturesOf, RowOf, DictOf, Valid;
    DictRow(cfg, q);
    var fast, row := FastRow(cfg, q), RowOf(DictOf(q));
    forall target, regime, pod
      ensures FeaturesOf(cfg, fast, pod, cfg.inFlightEnabled, target, regime)
              == FeaturesOf(cfg, row, pod, false, target, regime)
    {
      InFlightUnseen(cfg, fast, row, pod, target, regime);
    }
  }

  lemma InFlightUnseen(cfg: Config, fast: Row, row: Row, pod: Option<string>, target: Target, regime: Regime)
    requires row == fast.(prefillInFlight := 0.0, decodeInFlight := 0.0)
    requires !cfg.inFlightEnabled || (fast.prefillInFlight == 0.0 && fast.decodeInFlight == 0.0)
    ensures FeaturesOf(cfg, fast, pod, cfg.inFlightEnabled, target, regime)
            == FeaturesOf(cfg, row, pod, false, target, regime)
  {
    var f := FeaturesOf(cfg, fast, pod, cfg.inFlightEnabled, target, regime);
    var g := FeaturesOf(cfg, row, pod, false, target, regime);
    assert f.queued == g.queued;
    assert f.inFlight == g.inFlight;
    assert f.own == g.own;
    assert f.pod == g.pod;
    assert f.kv == g.kv && f.inputTokens == g.inputTokens && f.running == g.running;
  }

  lemma DictRow(cfg: Config, q: PredictionRequest)
    ensures RowOf(DictOf(q)) == FastRow(cfg, q).(prefillInFlight := 0.0, decodeInFlight := 0.0)
  {
  }

  predicate FastAgrees(cfg: Config, m: Loaded, reqs: seq<PredictionRequest>) {
    && FastOf(cfg, Some(m), reqs).Done? && |FastOf(cfg, Some(m), reqs).value| == |reqs|
    && forall i :: 0 <= i < |reqs|
           ==> PredictOf(cfg, Some(m), DictOf(reqs[i])) == Done(FastOf(cfg, Some(m), reqs).value[i])
  }

  /** A model that adds up the tokens in flight. */
  function InFlightModel(f: Features): real {
    if f.inFlight.None? then 0.0 else f.inFlight.value.0 + f.inFlight.value.1
  }

  lemma InFlightSeen(cfg: Config, q: PredictionRequest)
    requires cfg.inFlightEnabled && !NoneInFlight(q)
    ensures var m := Loaded(InFlightModel, InFlightModel, None);
            BatchRow(cfg, m, FastRow(cfg, q), true) != PredictRow(cfg, m, RowOf(DictOf(q)), false)
  {
    var m := Loaded(InFlightModel, InFlightModel, None);
    var row := FastRow(cfg, q);
    assert BatchRow(cfg, m, row, true).0 == row.prefillInFlight + row.decodeInFlight;
    assert PredictRow(cfg, m, RowOf(DictOf(q)), false).0 == 0.0;
  }

  /** The fast path agrees with the single predictions for all models exactly when tokens in flight are disabled or
      zero throughout. */
  lemma FastAgreesIff(cfg: Config, reqs: seq<PredictionRequest>)
    ensures (forall m :: FastAgrees(cfg, m, reqs))
       <==> (!cfg.inFlightEnabled || forall i :: 0 <= i < |reqs| ==> NoneInFlight(reqs[i]))
  {
    hide BatchRow, PredictRow, RowOf, DictOf, FastRow, Valid;
    if i :| 0 <= i < |reqs| && cfg.inFlightEnabled && !NoneInFlight(reqs[i]) {
      InFlightSeen(cfg, reqs[i]);
      assert !FastAgrees(cfg, Loaded(InFlightModel, InFlightModel, None), reqs);
    } else {
      forall m
        ensures FastAgrees(cfg, m, reqs)
      {
        forall i | 0 <= i < |reqs|
          ensures PredictOf(cfg, Some(m), DictOf(reqs[i])) == Done(FastOf(cfg, Some(m), reqs).value[i])
        {
          FastRowAgrees(cfg, m, reqs[i]);
        }
      }
    }
  }
}
