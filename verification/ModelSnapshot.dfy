// Loads of models against predictions running at the same time (latencypredictor/prediction_server.py): both touch the
// model fields one by one, holding the lock.
module ModelSnapshot {
  import opened Wrappers

  type Thread = nat

  /** The number of a load; 0 before the first. */
  type LoadId = nat

  /** The two models, the two gated ensembles and the flag that says whether these are in use. */
  const FIELDS := 5

  /** What a load puts into one of the fields. */
  datatype Slot = Slot(load: LoadId, field: nat)

  datatype Local =
    | Loading(load: LoadId, written: nat)
    | Reading(seen: seq<Slot>)
    | Snapped(seen: seq<Slot>)

  /** What each field holds, the loads begun so far, who holds the lock, and where each thread
      stands. */
  datatype State = State(fields: seq<Slot>, begun: set<LoadId>, lock: Option<Thread>, threads: map<Thread, Local>)

  datatype Step =
    | BeginLoad(t: Thread, load: LoadId)
    | WriteField(t: Thread)
    | EndLoad(t: Thread)
    | BeginRead(t: Thread)
    | ReadField(t: Thread)
    | EndRead(t: Thread)

  predicate Enabled(s: State, step: Step) {
    match step
    case BeginLoad(t, load) => t !in s.threads && load !in s.begun && s.lock.None?
    case WriteField(t) => t in s.threads && s.threads[t].Loading? && s.lock == Some(t) && s.threads[t].written < FIELDS
    case EndLoad(t) => t in s.threads && s.threads[t].Loading? && s.lock == Some(t) && s.threads[t].written == FIELDS
    case BeginRead(t) => t !in s.threads && s.lock.None?
    case ReadField(t) => t in s.threads && s.threads[t].Reading? && s.lock == Some(t) && |s.threads[t].seen| < FIELDS
    case EndRead(t) => t in s.threads && s.threads[t].Reading? && s.lock == Some(t) && |s.threads[t].seen| == FIELDS
  }

  function Apply(s: State, step: Step): State
    requires |s.fields| == FIELDS && Enabled(s, step)
  {
    match step
    case BeginLoad(t, load) =>
      s.(begun := s.begun + {load}, lock := Some(t), threads := s.threads[t := Loading(load, 0)])
    case WriteField(t) =>
      var k := s.threads[t].written;
      s.(fields := s.fields[k := Slot(s.threads[t].load, k)],
         threads := s.threads[t := Loading(s.threads[t].load, k + 1)])
    case EndLoad(t) => s.(lock := None, threads := s.threads - {t})
    case BeginRead(t) => s.(lock := Some(t), threads := s.threads[t := Reading([])])
    case ReadField(t) =>
      var seen := s.threads[t].seen;
      s.(threads := s.threads[t := Reading(seen + [s.fields[|seen|]])])
    case EndRead(t) => s.(lock := None, threads := s.threads[t := Snapped(s.threads[t].seen)])
  }

  function After(s: State, step: Step): (r: State)
    requires |s.fields| == FIELDS
    ensures |r.fields| == FIELDS
  {
    if Enabled(s, step) then Apply(s, step) else s
  }

  function Run(steps: seq<Step>): (r: State)
    ensures |r.fields| == FIELDS
  {
    if steps == [] then State([Slot(0, 0), Slot(0, 1), Slot(0, 2), Slot(0, 3), Slot(0, 4)], {0}, None, map[])
    else After(Run(steps[..|steps| - 1]), steps[|steps| - 1])
  }

  /** Each field, in its place, as the load put it there. */
  predicate OneLoad(slots: seq<Slot>, load: LoadId) { forall i :: 0 <= i < |slots| ==> slots[i] == Slot(load, i) }

  predicate FromOneLoad(slots: seq<Slot>) { slots == [] || OneLoad(slots, slots[0].load) }

  predicate ThreadOk(s: State, t: Thread, local: Local) {
    match local
    case Loading(load, written) => s.lock == Some(t) && written <= |s.fields| && OneLoad(s.fields[..written], load)
    case Reading(seen) => s.lock == Some(t) && seen <= s.fields && FromOneLoad(s.fields)
    case Snapped(seen) => s.lock != Some(t) && |seen| == FIELDS && FromOneLoad(seen)
  }

  predicate Inv(s: State) {
    && |s.fields| == FIELDS
    && (s.lock.None? ==> FromOneLoad(s.fields))
    && (s.lock.Some? ==> s.lock.value in s.threads)
    && forall t :: t in s.threads ==> ThreadOk(s, t, s.threads[t])
  }

  lemma WriteKeepsInv(s: State, t: Thread)
    requires Inv(s) && Enabled(s, WriteField(t))
    ensures Inv(Apply(s, WriteField(t)))
  {
    var r := Apply(s, WriteField(t));
    var local := s.threads[t];
    assert ThreadOk(s, t, local);
    assert r.fields[..local.written + 1] == s.fields[..local.written] + [Slot(local.load, local.written)];
    forall u | u in r.threads
      ensures ThreadOk(r, u, r.threads[u])
    {
      assert u != t ==> ThreadOk(s, u, s.threads[u]);
    }
  }

  lemma StepKeepsInv(s: State, step: Step)
    requires Inv(s) && Enabled(s, step)
    ensures Inv(Apply(s, step))
  {
    var r := Apply(s, step);
    match step {
      case WriteField(t) => WriteKeepsInv(s, t);
      case EndLoad(t) =>
        assert ThreadOk(s, t, s.threads[t]);
        assert s.fields[..FIELDS] == s.fields;
      case EndRead(t) =>
        assert ThreadOk(s, t, s.threads[t]);
        assert s.threads[t].seen == s.fields;
      case _ =>
        assert forall u :: u in s.threads ==> ThreadOk(s, u, s.threads[u]);
    }
  }

  lemma {:induction false} RunInv(steps: seq<Step>)
    ensures Inv(Run(steps))
    decreases |steps|
  {
    if steps != [] {
      RunInv(steps[..|steps| - 1]);
      if Enabled(Run(steps[..|steps| - 1]), steps[|steps| - 1]) {
        StepKeepsInv(Run(steps[..|steps| - 1]), steps[|steps| - 1]);
      }
    }
  }

  /** The load that finished last, 0 before the first. */
  function LastLoad(steps: seq<Step>): LoadId {
    if steps == [] then 0
    else
      var front, last := steps[..|steps| - 1], steps[|steps| - 1];
      if last.EndLoad? && Enabled(Run(front), last) then Run(front).threads[last.t].load else LastLoad(front)
  }

  /** The load that had finished last when the thread took the lock to read. */
  function LoadAtRead(steps: seq<Step>, t: Thread): LoadId {
    if steps == [] then 0
    else
      var front, last := steps[..|steps| - 1], steps[|steps| - 1];
      if last == BeginRead(t) && Enabled(Run(front), last) then LastLoad(front) else LoadAtRead(front, t)
  }

  predicate Latest(steps: seq<Step>, s: State, t: Thread) {
    t in s.threads ==>
      match s.threads[t]
      case Loading(_, _) => true
      case Reading(seen) => LoadAtRead(steps, t) == LastLoad(steps)
      case Snapped(seen) => OneLoad(seen, LoadAtRead(steps, t))
  }

  lemma LatestStep(steps: seq<Step>, t: Thread)
    requires steps != []
    requires var front := steps[..|steps| - 1];
             && Inv(Run(front)) && Latest(front, Run(front), t)
             && (NoLoader(Run(front)) ==> OneLoad(Run(front).fields, LastLoad(front)))
    ensures Latest(steps, Run(steps), t)
    ensures NoLoader(Run(steps)) ==> OneLoad(Run(steps).fields, LastLoad(steps))
  {
    var front, last := steps[..|steps| - 1], steps[|steps| - 1];
    var s := Run(front);
    if Enabled(s, last) {
      if s.lock.Some? {
        assert ThreadOk(s, s.lock.value, s.threads[s.lock.value]);
      }
      if t in s.threads {
        assert ThreadOk(s, t, s.threads[t]);
      }
      if last.EndLoad? {
        assert s.fields[..FIELDS] == s.fields;
      }
    }
  }

  /** Nobody is in the middle of writing the fields. */
  predicate NoLoader(s: State) { s.lock.None? || (s.lock.value in s.threads && !s.threads[s.lock.value].Loading?) }

  lemma {:induction false} AlwaysLatest(steps: seq<Step>, t: Thread)
    ensures Latest(steps, Run(steps), t)
    ensures NoLoader(Run(steps)) ==> OneLoad(Run(steps).fields, LastLoad(steps))
    decreases |steps|
  {
    if steps != [] {
      AlwaysLatest(steps[..|steps| - 1], t);
      RunInv(steps[..|steps| - 1]);
      LatestStep(steps, t);
    }
  }

  /** However loads and predictions interleave, all the models of one prediction's snapshot come from one load: the one
      that had finished last when the prediction took the lock. */
  lemma NoMixedSnapshot(steps: seq<Step>, t: Thread)
    requires t in Run(steps).threads && Run(steps).threads[t].Snapped?
    ensures OneLoad(Run(steps).threads[t].seen, LoadAtRead(steps, t))
    ensures |Run(steps).threads[t].seen| == 5
  {
    RunInv(steps);
    AlwaysLatest(steps, t);
    assert ThreadOk(Run(steps), t, Run(steps).threads[t]);
  }

  /** Whoever holds the lock can go on, and without a holder a new load or prediction can take it. */
  lemma SomeoneCanMove(steps: seq<Step>, newcomer: Thread, load: LoadId)
    requires newcomer !in Run(steps).threads && load !in Run(steps).begun
    ensures var s := Run(steps);
            if s.lock.None? then Enabled(s, BeginLoad(newcomer, load)) && Enabled(s, BeginRead(newcomer))
            else
              var t := s.lock.value;
              || Enabled(s, WriteField(t)) || Enabled(s, EndLoad(t))
              || Enabled(s, ReadField(t)) || Enabled(s, EndRead(t))
  {
    hide Run;
    RunInv(steps);
    var s := Run(steps);
    if s.lock.Some? {
      assert ThreadOk(s, s.lock.value, s.threads[s.lock.value]);
    }
  }
}
