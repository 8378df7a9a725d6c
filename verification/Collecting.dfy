// The collector of one endpoint (pkg/epp/datalayer/collector.go): started at most once, stopped at most once.
module Collecting {
  import opened Wrappers

  type Source(==, !new)

  /** The two once-guards, the collection goroutines launched and the cancellations of their context. */
  datatype CollectorState = CollectorState(startFired: bool, stopFired: bool, launched: nat, cancels: nat)

  const NEW_COLLECTOR := CollectorState(false, false, 0, 0)

  datatype StartError = EmptySources | NilSource | StartedBefore | ContextDone
  datatype StopError = NotStarted | StoppedBefore

  /** `contextDone`: the parent's cancellation is seen before the goroutine's readiness. */
  function OnStart(c: CollectorState, sources: seq<Option<Source>>, contextDone: bool)
    : (CollectorState, Option<StartError>)
  {
    if sources == [] then (c, Some(EmptySources))
    else if None in sources then (c, Some(NilSource))
    else if c.startFired then (c, Some(StartedBefore))
    else
      var started := c.(startFired := true, launched := c.launched + 1);
      if contextDone then (started.(cancels := c.cancels + 1), Some(ContextDone)) else (started, None)
  }

  function OnStop(c: CollectorState): (CollectorState, Option<StopError>) {
    if !c.startFired then (c, Some(NotStarted))
    else if c.stopFired then (c, Some(StoppedBefore))
    else (c.(stopFired := true, cancels := c.cancels + 1), None)
  }

  predicate Running(c: CollectorState) { c == CollectorState(true, false, 1, 0) }

  /** Launched once and then cancelled: by a stop, or by its own start when the parent was done. */
  predicate Ended(c: CollectorState) { c.startFired && c.launched == 1 && c.cancels == 1 }

  datatype Call = StartCall(sources: seq<Option<Source>>, contextDone: bool) | StopCall

  function Called(c: CollectorState, call: Call): CollectorState {
    match call
    case StartCall(sources, contextDone) => OnStart(c, sources, contextDone).0
    case StopCall => OnStop(c).0
  }

  function AfterCalls(calls: seq<Call>): CollectorState {
    if calls == [] then NEW_COLLECTOR else Called(AfterCalls(calls[..|calls| - 1]), calls[|calls| - 1])
  }

  predicate ValidStart(call: Call) { call.StartCall? && call.sources != [] && None !in call.sources }

  ghost predicate StartedIn(calls: seq<Call>) { exists i :: 0 <= i < |calls| && ValidStart(calls[i]) }

  ghost predicate StoppedIn(calls: seq<Call>) {
    exists i, j :: 0 <= i < j < |calls| && ValidStart(calls[i]) && calls[j].StopCall?
  }

  lemma {:induction false} FiredIff(calls: seq<Call>)
    ensures AfterCalls(calls).startFired <==> StartedIn(calls)
    ensures AfterCalls(calls).stopFired <==> StoppedIn(calls)
    decreases |calls|
  {
    if calls != [] {
      var n := |calls| - 1;
      var front := calls[..n];
      FiredIff(front);
      assert forall i :: 0 <= i < n ==> front[i] == calls[i];
      assert StartedIn(calls) <==> StartedIn(front) || ValidStart(calls[n]);
      assert StoppedIn(calls) <==> StoppedIn(front) || (StartedIn(front) && calls[n].StopCall?) by {
        if StartedIn(front) && calls[n].StopCall? {
          var i :| 0 <= i < n && ValidStart(front[i]);
          assert ValidStart(calls[i]) && calls[n].StopCall?;
        }
        if StoppedIn(front) {
          var i, j :| 0 <= i < j < n && ValidStart(front[i]) && front[j].StopCall?;
          assert ValidStart(calls[i]) && calls[j].StopCall?;
        }
      }
    }
  }

  /** After any calls: a start goes through exactly when it has sources, none of them nil, none with sources went before
      it and the parent is not done; a stop exactly when such a start went before it and no stop since. The errors say
      which of these failed first. */
  lemma OutcomesByHistory(calls: seq<Call>, sources: seq<Option<Source>>, contextDone: bool)
    ensures OnStart(AfterCalls(calls), sources, contextDone).1
         == if sources == [] then Some(EmptySources)
            else if None in sources then Some(NilSource)
            else if StartedIn(calls) then Some(StartedBefore)
            else if contextDone then Some(ContextDone) else None
    ensures OnStop(AfterCalls(calls)).1
         == if !StartedIn(calls) then Some(NotStarted) else if StoppedIn(calls) then Some(StoppedBefore) else None
  {
    FiredIff(calls);
  }

  /** Whatever is called how often, one goroutine at most is launched, and no stop goes through before that. */
  lemma {:induction false} LaunchedAtMostOnce(calls: seq<Call>)
    ensures var c := AfterCalls(calls);
            && c.launched == (if c.startFired then 1 else 0)
            && (c.stopFired ==> c.startFired)
            && (if c.stopFired then 1 else 0) <= c.cancels
                  <= (if c.startFired then 1 else 0) + (if c.stopFired then 1 else 0)
            && ((forall call :: call in calls && call.StartCall? ==> !call.contextDone) ==>
                  c.cancels == (if c.stopFired then 1 else 0))
    decreases |calls|
  {
    if calls != [] {
      LaunchedAtMostOnce(calls[..|calls| - 1]);
      assert calls[|calls| - 1] in calls;
    }
  }

  class Collector {
    var startFired: bool
    var stopFired: bool
    var launched: nat
    var cancels: nat

    ghost function View(): CollectorState
      reads this
    {
      CollectorState(startFired, stopFired, launched, cancels)
    }

    constructor ()
      ensures View() == NEW_COLLECTOR
    {
      startFired, stopFired, launched, cancels := false, false, 0, 0;
    }

    method Start(sources: seq<Option<Source>>, contextDone: bool) returns (err: Option<StartError>)
      modifies this
      ensures (View(), err) == OnStart(old(View()), sources, contextDone)
    {
      if |sources| == 0 {
        return Some(EmptySources);
      }
      for i := 0 to |sources|
        invariant View() == old(View())
        invariant None !in sources[..i]
      {
        if sources[i].None? {
          return Some(NilSource);
        }
      }
      assert sources[..|sources|] == sources;
      var started := false;
      if !startFired {
        startFired := true;
        started := true;
        launched := launched + 1;
      }
      if !started {
        return Some(StartedBefore);
      }
      if contextDone {
        cancels := cancels + 1;
        return Some(ContextDone);
      }
      return None;
    }

    method Stop() returns (err: Option<StopError>)
      modifies this
      ensures (View(), err) == OnStop(old(View()))
    {
      if !startFired {
        return Some(NotStarted);
      }
      var stopped := false;
      if !stopFired {
        stopFired := true;
        stopped := true;
        cancels := cancels + 1;
      }
      if !stopped {
        return Some(StoppedBefore);
      }
      return None;
    }
  }
}
