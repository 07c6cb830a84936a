/** The daemon's workflow coordinator: one run at a time and at most one more queued.

    The gate decides about every trigger, the queue behind it runs the accepted ones one after the other,
    and the end of a run is reported to the gate in the same step. */
module SyncGate {
  import opened Options

  datatype Gate = Idle | Running(queued: bool)

  datatype Verdict = Accept | Drop

  function OnTrigger(gate: Gate): (Gate, Verdict) {
    match gate
    case Idle => (Running(false), Accept)
    case Running(queued) => if queued then (gate, Drop) else (Running(true), Accept)
  }

  function OnDone(gate: Gate): Gate {
    if gate.Running? && gate.queued then Running(false) else Idle
  }

  /** The gate with the queue of accepted triggers behind it, numbered in order of arrival; finished and
      dropped keep the history. A run that ends reports done, and the next accepted one starts. */
  datatype State = State(
    gate: Gate,
    active: Option<nat>,
    buffer: seq<nat>,
    finished: seq<nat>,
    dropped: set<nat>,
    arrived: nat)

  const CREATED := State(Idle, None, [], [], {}, 0)

  function Arrive(s: State): State {
    var (gate, verdict) := OnTrigger(s.gate);
    var t := s.(gate := gate, arrived := s.arrived + 1);
    match verdict
    case Drop => t.(dropped := s.dropped + {s.arrived})
    case Accept => if s.active.None? then t.(active := Some(s.arrived)) else t.(buffer := s.buffer + [s.arrived])
  }

  /** The run in progress ends, well or badly. */
  function Finish(s: State): State
    requires s.active.Some?
  {
    var t := s.(gate := OnDone(s.gate), finished := s.finished + [s.active.value]);
    if s.buffer == [] then t.(active := None) else t.(active := Some(s.buffer[0]), buffer := s.buffer[1..])
  }

  class Coordinator {
    var gate: Gate
    var active: Option<nat>
    var buffer: seq<nat>
    var finished: seq<nat>
    var dropped: set<nat>
    var arrived: nat

    function View(): State
      reads this
    {
      State(gate, active, buffer, finished, dropped, arrived)
    }

    constructor ()
      ensures View() == CREATED
    {
      gate, active, buffer, finished, dropped, arrived := Idle, None, [], [], {}, 0;
    }

    method OnArrive()
      modifies this
      ensures View() == Arrive(old(View()))
    {
      var (next, verdict) := OnTrigger(gate);
      gate := next;
      if verdict.Drop? {
        dropped := dropped + {arrived};
      } else if active.None? {
        active := Some(arrived);
      } else {
        buffer := buffer + [arrived];
      }
      arrived := arrived + 1;
    }

    method OnFinish()
      requires active.Some?
      modifies this
      ensures View() == Finish(old(View()))
    {
      finished := finished + [active.value];
      gate := OnDone(gate);
      if buffer == [] {
        active := None;
      } else {
        active, buffer := Some(buffer[0]), buffer[1..];
      }
    }
  }

  datatype Event = Trigger | RunEnds

  function After(events: seq<Event>): Option<State> {
    if events == [] then Some(CREATED)
    else match After(events[..|events| - 1])
      case None => None
      case Some(s) =>
        if events[|events| - 1].Trigger? then Some(Arrive(s)) else if s.active.Some? then Some(Finish(s)) else None
  }

  /** Every accepted trigger, in the order its run starts: those finished, the one running, the one queued. */
  function Runs(s: State): seq<nat> {
    s.finished + (if s.active.Some? then [s.active.value] else []) + s.buffer
  }

  predicate Increasing(runs: seq<nat>, arrived: nat) {
    (forall i, j :: 0 <= i < j < |runs| ==> runs[i] < runs[j]) && forall i :: 0 <= i < |runs| ==> runs[i] < arrived
  }

  ghost predicate Inv(s: State) {
    && (s.gate.Idle? <==> s.active.None?)
    && (s.active.None? ==> s.buffer == [])
    && |s.buffer| == (if s.gate == Running(true) then 1 else 0)
    && Increasing(Runs(s), s.arrived)
    && (forall n: nat :: n < s.arrived <==> n in s.dropped || n in Runs(s))
    && (forall n :: n in s.dropped ==> n !in Runs(s))
  }

  lemma {:induction false} ArriveKeepsInv(s: State)
    requires Inv(s)
    ensures Inv(Arrive(s))
    ensures Runs(Arrive(s)) == Runs(s) + if s.gate == Running(true) then [] else [s.arrived]
  {
    assert Runs(Arrive(s)) == Runs(s) + if s.gate == Running(true) then [] else [s.arrived];
    assert s.arrived !in Runs(s) && s.arrived !in s.dropped;
  }

  lemma {:induction false} FinishKeepsInv(s: State)
    requires Inv(s) && s.active.Some?
    ensures Inv(Finish(s))
    ensures Runs(Finish(s)) == Runs(s)
  {
    assert Runs(Finish(s)) == Runs(s);
  }

  lemma {:induction false} RunsKeepInv(events: seq<Event>)
    requires After(events).Some?
    ensures Inv(After(events).value)
  {
    if events != [] {
      var s := After(events[..|events| - 1]).value;
      RunsKeepInv(events[..|events| - 1]);
      if events[|events| - 1].Trigger? {
        ArriveKeepsInv(s);
      } else {
        FinishKeepsInv(s);
      }
    }
  }

  /** In every run at most one workflow is in progress and one queued; every trigger is either dropped or
      run, each once and in order of arrival. */
  lemma {:induction false} EachRunsOnceOrIsDropped(events: seq<Event>)
    requires After(events).Some?
    ensures var s := After(events).value;
      && |s.buffer| <= 1
      && (forall i, j :: 0 <= i < j < |Runs(s)| ==> Runs(s)[i] < Runs(s)[j])
      && (forall n: nat :: n < s.arrived ==> (n in s.dropped <==> n !in Runs(s)))
  {
    RunsKeepInv(events);
  }

  /** In every run a trigger is dropped exactly when a run that has not started yet is queued: that run starts
      after the trigger arrived. */
  lemma {:induction false} DroppedIffQueued(events: seq<Event>)
    requires After(events).Some?
    ensures var s := After(events).value;
      && (s.arrived in Arrive(s).dropped <==> |s.buffer| == 1)
      && (s.arrived in Arrive(s).dropped ==> s.active.Some? && s.buffer[0] in Runs(s) && s.buffer[0] !in s.finished)
  {
    RunsKeepInv(events);
    var s := After(events).value;
    assert s.arrived !in s.dropped;
    if |s.buffer| == 1 {
      assert Runs(s)[|s.finished| + 1] == s.buffer[0];
      assert forall i :: 0 <= i < |s.finished| ==> Runs(s)[i] == s.finished[i];
    }
  }
}
