/** The state that keeps the flush listener and the periodic worker from compacting at the same time. */
module CompactionLock {

  datatype CompState = Sleep | Active

  /** Where a worker is: sleeping, inside `handle_compaction`, or about to reset the state. */
  datatype Place = Waiting | Compacting | Leaving

  datatype Sys = Sys(state: CompState, listener: Place, worker: Place)

  const Initial: Sys := Sys(Sleep, Waiting, Waiting)

  /** The steps the code takes between two uses of the lock. A compaction that fails sends the listener
      back to waiting without a reset; the worker resets in both cases. */
  datatype Step =
    | ListenerStarts | ListenerSucceeds | ListenerFails | ListenerResets
    | WorkerStarts | WorkerEnds | WorkerResets

  predicate Enabled(s: Sys, step: Step)
  {
    match step
    case ListenerStarts => s.listener == Waiting && s.state == Sleep
    case ListenerSucceeds => s.listener == Compacting
    case ListenerFails => s.listener == Compacting
    case ListenerResets => s.listener == Leaving
    case WorkerStarts => s.worker == Waiting && s.state == Sleep
    case WorkerEnds => s.worker == Compacting
    case WorkerResets => s.worker == Leaving
  }

  function Take(s: Sys, step: Step): (s': Sys)
    requires Enabled(s, step)
  {
    match step
    case ListenerStarts => s.(state := Active, listener := Compacting)
    case ListenerSucceeds => s.(listener := Leaving)
    case ListenerFails => s.(listener := Waiting)
    case ListenerResets => s.(state := Sleep, listener := Waiting)
    case WorkerStarts => s.(state := Active, worker := Compacting)
    case WorkerEnds => s.(worker := Leaving)
    case WorkerResets => s.(state := Sleep, worker := Waiting)
  }

  predicate Trace(states: seq<Sys>, steps: seq<Step>)
  {
    |states| == |steps| + 1 &&
    forall i | 0 <= i < |steps| :: Enabled(states[i], steps[i]) && states[i + 1] == Take(states[i], steps[i])
  }

  predicate Busy(p: Place) { p != Waiting }

  /** At most one of the two is between its start and its reset, and then the state says so. */
  predicate Exclusive(s: Sys)
  {
    !(Busy(s.listener) && Busy(s.worker)) && (Busy(s.listener) || Busy(s.worker) ==> s.state == Active)
  }

  lemma StepExclusive(s: Sys, step: Step)
    requires Exclusive(s) && Enabled(s, step)
    ensures Exclusive(Take(s, step))
  {
  }

  /** In every interleaving, failing compactions included, the two never compact at once. */
  lemma {:induction false} AlwaysExclusive(states: seq<Sys>, steps: seq<Step>, n: nat)
    requires Trace(states, steps) && states[0] == Initial && n < |states|
    ensures Exclusive(states[n])
    ensures !(states[n].listener == Compacting && states[n].worker == Compacting)
  {
    if n > 0 {
      AlwaysExclusive(states, steps, n - 1);
      assert states[n - 1 + 1] == Take(states[n - 1], steps[n - 1]);
      StepExclusive(states[n - 1], steps[n - 1]);
    }
  }

  /** Active, and nobody left to reset it. */
  predicate Stuck(s: Sys)
  {
    s.state == Active && s.listener == Waiting && s.worker == Waiting
  }

  lemma StepStuck(s: Sys, step: Step)
    requires Exclusive(s) && Enabled(s, step)
    ensures !Stuck(s)
    ensures Stuck(Take(s, step)) <==> step == ListenerFails
  {
  }

  /** A compaction that fails under the listener is the last one: the state stays active, and no step of
      either side is possible afterwards. Nothing else ever stops the two. */
  lemma {:induction false} FailureStopsCompaction(states: seq<Sys>, steps: seq<Step>, n: nat)
    requires Trace(states, steps) && states[0] == Initial && n < |steps|
    ensures steps[n] == ListenerFails <==> Stuck(states[n + 1])
    ensures steps[n] == ListenerFails ==> n == |steps| - 1
  {
    AlwaysExclusive(states, steps, n);
    StepStuck(states[n], steps[n]);
    if steps[n] == ListenerFails && n + 1 < |steps| {
      AlwaysExclusive(states, steps, n + 1);
      StepStuck(states[n + 1], steps[n + 1]);
      assert false;
    }
  }
}
