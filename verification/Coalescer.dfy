// The request coalescer of the latency-predictor client (sidecars/latencypredictorasync/coalescer.go).
//
// Part one is the fan-out of one merged batch (`dispatchBatch`). Part two is the protocol: callers,
// the dispatcher's select loop, one goroutine per batch, the semaphore, the timer and shutdown, as a
// transition system in which every channel operation is a step of its own.
module Coalescer {
  import opened Wrappers

  /** One row of features, and the prediction for it. */
  type Row(==, !new)
  type Prediction(==, !new)

  /** A caller's rows. The id stands for the identity of its result channel. */
  datatype Submission = Submission(id: nat, rows: seq<Row>)

  datatype HttpResult = HttpOk(predictions: seq<Prediction>) | HttpErr(message: string)

  datatype BatchResult =
    | Response(predictions: seq<Prediction>, totalRequests: nat, successful: nat, failed: nat)
    | CallFailed(message: string)
    | TooShort(start: nat, end: nat, got: nat)
    | ShuttingDown

  // ---- Merging and fanning out one batch ----

  /** The rows of the merged call. */
  function Merge(subs: seq<Submission>): seq<Row> {
    if subs == [] then [] else Merge(subs[..|subs| - 1]) + subs[|subs| - 1].rows
  }

  function RowCount(subs: seq<Submission>): nat {
    |Merge(subs)|
  }

  /** What caller `i` of the batch is sent when the call returned `http`. */
  function ReplyFor(subs: seq<Submission>, i: nat, http: HttpResult): BatchResult
    requires i < |subs|
  {
    match http
    case HttpErr(message) => CallFailed(message)
    case HttpOk(predictions) =>
      var start := RowCount(subs[..i]);
      var n := |subs[i].rows|;
      if start + n > |predictions| then TooShort(start, start + n, |predictions|)
      else Response(predictions[start..start + n], n, n, 0)
  }

  lemma MergeNone()
    ensures Merge([]) == []
  {
  }

  lemma MergeSnoc(subs: seq<Submission>, sub: Submission)
    ensures Merge(subs + [sub]) == Merge(subs) + sub.rows
  {
    assert (subs + [sub])[..|subs|] == subs;
  }

  /** Slice boundaries of the callers in the merged batch. */
  ghost predicate Boundaries(subs: seq<Submission>, offsets: seq<nat>, counts: seq<nat>) {
    && |offsets| == |subs| && |counts| == |subs|
    && forall k :: 0 <= k < |subs| ==> offsets[k] == RowCount(subs[..k]) && counts[k] == |subs[k].rows|
  }

  method MergeSubmissions(subs: seq<Submission>)
    returns (allRequests: seq<Row>, offsets: array<nat>, counts: array<nat>)
    ensures allRequests == Merge(subs) && fresh(offsets) && fresh(counts)
    ensures Boundaries(subs, offsets[..], counts[..])
  {
    hide Merge;
    MergeNone();
    allRequests := [];
    offsets, counts := new nat[|subs|], new nat[|subs|];
    var offset := 0;
    assert subs[..0] == [];
    for i := 0 to |subs|
      invariant allRequests == Merge(subs[..i]) && offset == |allRequests|
      invariant forall k :: 0 <= k < i ==> offsets[k] == RowCount(subs[..k]) && counts[k] == |subs[k].rows|
    {
      offsets[i] := offset;
      counts[i] := |subs[i].rows|;
      MergeSnoc(subs[..i], subs[i]);
      assert subs[..i + 1] == subs[..i] + [subs[i]];
      allRequests := allRequests + subs[i].rows;
      offset := offset + |subs[i].rows|;
    }
    assert subs[..|subs|] == subs;
  }

  method FanOut(subs: seq<Submission>, offsets: array<nat>, counts: array<nat>, http: HttpResult)
    returns (results: seq<BatchResult>)
    requires Boundaries(subs, offsets[..], counts[..])
    ensures |results| == |subs|
    ensures forall i :: 0 <= i < |subs| ==> results[i] == ReplyFor(subs, i, http)
  {
    hide RowCount;
    results := [];
    for i := 0 to |subs|
      invariant |results| == i
      invariant forall k :: 0 <= k < i ==> results[k] == ReplyFor(subs, k, http)
    {
      assert offsets[..][i] == RowCount(subs[..i]) && counts[..][i] == |subs[i].rows|;
      if http.HttpErr? {
        results := results + [CallFailed(http.message)];
        continue;
      }
      var start := offsets[i];
      var end := start + counts[i];
      if end > |http.predictions| {
        results := results + [TooShort(start, end, |http.predictions|)];
        continue;
      }
      results := results + [Response(http.predictions[start..end], counts[i], counts[i], 0)];
    }
  }

  method DispatchBatch(subs: seq<Submission>, server: seq<Row> -> HttpResult) returns (results: seq<BatchResult>)
    ensures |results| == |subs|
    ensures forall i :: 0 <= i < |subs| ==> results[i] == ReplyFor(subs, i, server(Merge(subs)))
    ensures server(Merge(subs)).HttpErr? ==>
              forall i :: 0 <= i < |subs| ==> results[i] == CallFailed(server(Merge(subs)).message)
  {
    var allRequests, offsets, counts := MergeSubmissions(subs);
    results := FanOut(subs, offsets, counts, server(allRequests));
  }

  /** A server that predicts row by row, in order. */
  function PredictEach(f: Row -> Prediction, rows: seq<Row>): seq<Prediction> {
    seq(|rows|, i requires 0 <= i < |rows| => f(rows[i]))
  }

  /** What a direct, uncoalesced call with these rows returns. */
  function DirectCall(f: Row -> Prediction, rows: seq<Row>): BatchResult {
    Response(PredictEach(f, rows), |rows|, |rows|, 0)
  }

  /** Caller `i`'s rows sit in the merged batch at its offset. */
  lemma {:induction false} MergeAt(subs: seq<Submission>, i: nat)
    requires i < |subs|
    ensures RowCount(subs[..i]) + |subs[i].rows| <= RowCount(subs)
    ensures Merge(subs)[RowCount(subs[..i])..RowCount(subs[..i]) + |subs[i].rows|] == subs[i].rows
    decreases |subs|
  {
    var n := |subs| - 1;
    var front, rows := Merge(subs[..n]), subs[n].rows;
    var start, size := RowCount(subs[..i]), |subs[i].rows|;
    assert Merge(subs) == front + rows;
    MergeLength(subs[..n]);
    if i < n {
      MergeAt(subs[..n], i);
      assert subs[..n][..i] == subs[..i] && subs[..n][i] == subs[i];
      assert (front + rows)[start..start + size] == front[start..start + size];
    } else {
      assert (front + rows)[|front|..] == rows;
    }
  }

  lemma {:induction false} MergeLength(subs: seq<Submission>)
    ensures |Merge(subs)| == RowCount(subs)
    decreases |subs|
  {
    if subs != [] {
      MergeLength(subs[..|subs| - 1]);
    }
  }

  /** However many predictions come back, each caller gets either exactly what a direct call would
      have given it, or the too-short error; never a row of another caller. */
  lemma CallerGetsOwnRows(subs: seq<Submission>, i: nat, f: Row -> Prediction, got: nat)
    requires i < |subs| && got <= RowCount(subs)
    ensures var start := RowCount(subs[..i]);
            ReplyFor(subs, i, HttpOk(PredictEach(f, Merge(subs))[..got]))
            == if start + |subs[i].rows| <= got then DirectCall(f, subs[i].rows)
               else TooShort(start, start + |subs[i].rows|, got)
  {
    MergeAt(subs, i);
    var start, n := RowCount(subs[..i]), |subs[i].rows|;
    hide Merge, RowCount;
    if start + n <= got {
      PredictSlice(f, Merge(subs), start, n, got);
    }
  }

  lemma PredictSlice(f: Row -> Prediction, rows: seq<Row>, start: nat, n: nat, got: nat)
    requires start + n <= got <= |rows|
    ensures PredictEach(f, rows)[..got][start..start + n] == PredictEach(f, rows[start..start + n])
  {
  }

  /** With a full response, coalescing is invisible to every caller. */
  lemma CoalescedEqualsDirect(subs: seq<Submission>, i: nat, f: Row -> Prediction)
    requires i < |subs|
    ensures ReplyFor(subs, i, HttpOk(PredictEach(f, Merge(subs)))) == DirectCall(f, subs[i].rows)
  {
    CallerGetsOwnRows(subs, i, f, RowCount(subs));
    MergeAt(subs, i);
    assert PredictEach(f, Merge(subs))[..RowCount(subs)] == PredictEach(f, Merge(subs));
  }
}
