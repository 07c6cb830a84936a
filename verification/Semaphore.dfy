/** The gateway's counting semaphore: acquires are numbered in order of arrival, waiters queue with a pending flag. */
module Semaphore {
  datatype State = State(active: int, waiting: seq<nat>, pending: set<nat>, answers: map<nat, bool>, issued: nat)

  const CREATED := State(0, [], {}, map[], 0)

  function Acquire(s: State, limit: nat): State {
    var id := s.issued;
    if s.active < limit then s.(active := s.active + 1, answers := s.answers[id := true], issued := id + 1)
    else s.(waiting := s.waiting + [id], pending := s.pending + {id}, issued := id + 1)
  }

  function Timeout(s: State, id: nat): State {
    s.(pending := s.pending - {id}, answers := s.answers[id := false])
  }

  function Release(s: State): State
    decreases |s.waiting|
  {
    if s.waiting == [] then s.(active := s.active - 1)
    else
      var head, shifted := s.waiting[0], s.(waiting := s.waiting[1..]);
      if head in s.pending then shifted.(pending := s.pending - {head}, answers := s.answers[head := true])
      else Release(shifted)
  }

  class Semaphore {
    const limit: nat
    var active: int
    var waiting: seq<nat>
    var pending: set<nat>
    var answers: map<nat, bool>
    var issued: nat

    function View(): State
      reads this
    {
      State(active, waiting, pending, answers, issued)
    }

    constructor (limit: nat)
      ensures this.limit == limit && View() == CREATED
    {
      this.limit := limit;
      active, waiting, pending, answers, issued := 0, [], {}, map[], 0;
    }

    method OnAcquire() returns (id: nat)
      modifies this
      ensures id == old(issued) && View() == Acquire(old(View()), limit)
    {
      id := issued;
      issued := issued + 1;
      if active < limit {
        active := active + 1;
        answers := answers[id := true];
        return;
      }
      pending := pending + {id};
      waiting := waiting + [id];
    }

    /** The timer of a waiter that has not been answered. */
    method OnTimeout(id: nat)
      requires id in pending
      modifies this
      ensures View() == Timeout(old(View()), id)
    {
      pending := pending - {id};
      answers := answers[id := false];
    }

    method OnRelease()
      modifies this
      ensures View() == Release(old(View()))
    {
      while |waiting| > 0
        invariant Release(View()) == Release(old(View()))
        decreases |waiting|
      {
        var next := waiting[0];
        waiting := waiting[1..];
        if next in pending {
          pending := pending - {next};
          answers := answers[next := true];
          return;
        }
      }
      active := active - 1;
    }
  }

  // Runs. holders are the acquires that were told yes and have not released yet.

  datatype System = System(sem: State, holders: set<nat>)

  const FRESH := System(CREATED, {})

  datatype Event = Arrive | TimerFires(id: nat) | LetGo(id: nat)

  predicate Enabled(s: System, event: Event) {
    match event
    case Arrive => true
    case TimerFires(id) => id in s.sem.pending
    case LetGo(id) => id in s.holders
  }

  /** Acquires told yes by a step. */
  function Admitted(before: State, after: State): set<nat> {
    set id | id in after.answers && after.answers[id] && id !in before.answers
  }

  function Step(s: System, event: Event, limit: nat): System {
    match event
    case Arrive => var t := Acquire(s.sem, limit); System(t, s.holders + Admitted(s.sem, t))
    case TimerFires(id) => System(Timeout(s.sem, id), s.holders)
    case LetGo(id) => var t := Release(s.sem); System(t, s.holders - {id} + Admitted(s.sem, t))
  }

  predicate IsRun(events: seq<Event>, limit: nat) {
    events == [] ||
    var before, last := events[..|events| - 1], events[|events| - 1];
    IsRun(before, limit) && Enabled(After(before, limit), last)
  }

  function After(events: seq<Event>, limit: nat): System {
    if events == [] then FRESH else Step(After(events[..|events| - 1], limit), events[|events| - 1], limit)
  }

  predicate Queue(waiting: seq<nat>, pending: set<nat>, issued: nat) {
    && (forall i, j :: 0 <= i < j < |waiting| ==> waiting[i] < waiting[j])
    && (forall i :: 0 <= i < |waiting| ==> waiting[i] < issued)
    && (forall id :: id in pending ==> id in waiting)
  }

  predicate Inv(s: System, limit: nat) {
    var m := s.sem;
    && Queue(m.waiting, m.pending, m.issued)
    && m.active == |s.holders| <= limit
    && (m.pending != {} ==> m.active == limit)
    && (forall id :: id in m.answers ==> id < m.issued && id !in m.pending)
    && (forall id: nat :: id < m.issued ==> id in m.answers || id in m.pending)
    && (forall id :: id in s.holders ==> id in m.answers && m.answers[id])
  }

  predicate IsOldest(s: State, oldest: nat) { oldest in s.pending && forall id :: id in s.pending ==> oldest <= id }

  lemma ShiftKeepsQueue(waiting: seq<nat>, pending: set<nat>, issued: nat)
    requires Queue(waiting, pending, issued) && waiting != []
    ensures Queue(waiting[1..], pending - {waiting[0]}, issued)
    ensures forall id :: id in pending ==> waiting[0] <= id
  {
    forall id | id in pending && id != waiting[0] ensures id in waiting[1..] && waiting[0] < id {
      var i :| 0 <= i < |waiting| && waiting[i] == id;
      assert waiting[1..][i - 1] == id;
    }
  }

  /** Release passes over dead waiters to the oldest live one; only without any is the slot freed. */
  lemma {:induction false} ReleaseServesOldest(s: State) returns (oldest: nat)
    requires Queue(s.waiting, s.pending, s.issued)
    ensures s.pending == {} ==> Release(s) == s.(waiting := [], active := s.active - 1)
    ensures s.pending != {} ==> IsOldest(s, oldest)
    ensures s.pending != {} ==>
      Release(s) == s.(waiting := Release(s).waiting, pending := s.pending - {oldest},
                       answers := s.answers[oldest := true])
    ensures s.pending != {} ==> Queue(Release(s).waiting, s.pending - {oldest}, s.issued)
    decreases |s.waiting|
  {
    oldest := 0;
    if s.waiting == [] {
      assert s.pending == {};
    } else {
      ShiftKeepsQueue(s.waiting, s.pending, s.issued);
      var head := s.waiting[0];
      if head in s.pending {
        oldest := head;
      } else {
        assert s.pending - {head} == s.pending;
        oldest := ReleaseServesOldest(s.(waiting := s.waiting[1..]));
      }
    }
  }

  lemma {:induction false} PushKeepsQueue(waiting: seq<nat>, pending: set<nat>, issued: nat)
    requires Queue(waiting, pending, issued)
    ensures Queue(waiting + [issued], pending + {issued}, issued + 1)
  {
    forall id | id in pending + {issued} ensures id in waiting + [issued] {
      if id in waiting {
        var i :| 0 <= i < |waiting| && waiting[i] == id;
        assert (waiting + [issued])[i] == id;
      } else {
        assert (waiting + [issued])[|waiting|] == id;
      }
    }
  }

  lemma {:induction false} AdmitOne(before: State, after: State, id: nat)
    requires id !in before.answers && after.answers == before.answers[id := true]
    ensures Admitted(before, after) == {id}
  {
  }

  lemma {:induction false} AdmittingKeepsInv(s: System, limit: nat)
    requires Inv(s, limit) && s.sem.active < limit
    ensures
      var m := s.sem;
      var t := m.(issued := m.issued + 1, active := m.active + 1, answers := m.answers[m.issued := true]);
      Inv(System(t, s.holders + {m.issued}), limit)
  {
    assert s.sem.issued !in s.holders;
  }

  lemma {:induction false} WaitingKeepsInv(s: System, limit: nat)
    requires Inv(s, limit) && s.sem.active >= limit
    ensures
      var m := s.sem;
      var t := m.(issued := m.issued + 1, waiting := m.waiting + [m.issued], pending := m.pending + {m.issued});
      Inv(System(t, s.holders), limit)
  {
    PushKeepsQueue(s.sem.waiting, s.sem.pending, s.sem.issued);
  }

  lemma {:induction false} ArriveKeepsInv(s: System, limit: nat)
    requires Inv(s, limit)
    ensures Inv(Step(s, Arrive, limit), limit)
  {
    var m, t := s.sem, Acquire(s.sem, limit);
    if m.active < limit {
      AdmittingKeepsInv(s, limit);
      AdmitOne(m, t, m.issued);
    } else {
      WaitingKeepsInv(s, limit);
      assert Admitted(m, t) == {} && s.holders + {} == s.holders;
    }
  }

  /** One holder leaves and another comes in. */
  lemma {:induction false} ExchangeKeepsCount(holders: set<nat>, leaves: nat, comes: nat)
    requires leaves in holders && comes !in holders
    ensures |holders - {leaves} + {comes}| == |holders|
  {
    assert |holders - {leaves}| == |holders| - 1;
  }

  lemma {:induction false} HandOverKeepsInv(s: System, id: nat, oldest: nat, left: seq<nat>, limit: nat)
    requires Inv(s, limit) && id in s.holders && oldest in s.sem.pending
    requires Queue(left, s.sem.pending - {oldest}, s.sem.issued)
    ensures
      var m := s.sem;
      var t := m.(waiting := left, pending := m.pending - {oldest}, answers := m.answers[oldest := true]);
      Inv(System(t, s.holders - {id} + {oldest}), limit)
  {
    ExchangeKeepsCount(s.holders, id, oldest);
    assert oldest in s.sem.waiting;
  }

  lemma {:induction false} SlotFreedKeepsInv(s: System, id: nat, limit: nat)
    requires Inv(s, limit) && id in s.holders && s.sem.pending == {}
    ensures Inv(System(s.sem.(waiting := [], active := s.sem.active - 1), s.holders - {id}), limit)
  {
    assert |s.holders - {id}| == |s.holders| - 1;
  }

  lemma {:induction false} LetGoKeepsInv(s: System, id: nat, limit: nat)
    requires Inv(s, limit) && id in s.holders
    ensures Inv(Step(s, LetGo(id), limit), limit)
  {
    var t := Release(s.sem);
    var oldest := ReleaseServesOldest(s.sem);
    if s.sem.pending == {} {
      SlotFreedKeepsInv(s, id, limit);
      assert Admitted(s.sem, t) == {};
      assert s.holders - {id} + {} == s.holders - {id};
    } else {
      AdmitOne(s.sem, t, oldest);
      HandOverKeepsInv(s, id, oldest, t.waiting, limit);
    }
  }

  lemma {:induction false} RunsKeepInv(events: seq<Event>, limit: nat)
    requires IsRun(events, limit)
    ensures Inv(After(events, limit), limit)
  {
    if events != [] {
      var before, event := After(events[..|events| - 1], limit), events[|events| - 1];
      RunsKeepInv(events[..|events| - 1], limit);
      match event
      case Arrive => ArriveKeepsInv(before, limit);
      case TimerFires(id) =>
      case LetGo(id) => LetGoKeepsInv(before, id, limit);
    }
  }

  /** In every run the counter is the number of slots held, never above the limit, and somebody waits
      only while every slot is taken. */
  lemma {:induction false} SlotsAreBounded(events: seq<Event>, limit: nat)
    requires IsRun(events, limit)
    ensures var s := After(events, limit);
      s.sem.active == |s.holders| <= limit && (s.sem.pending != {} ==> s.sem.active == limit)
  {
    RunsKeepInv(events, limit);
  }

  /** Answers given stay as they are. */
  predicate KeepsAnswers(before: State, after: State) {
    forall id :: id in before.answers ==> id in after.answers && after.answers[id] == before.answers[id]
  }

  lemma {:induction false} ReleaseKeepsAnswers(s: State)
    requires Queue(s.waiting, s.pending, s.issued) && s.answers.Keys !! s.pending
    ensures KeepsAnswers(s, Release(s))
  {
    var oldest := ReleaseServesOldest(s);
    assert s.pending != {} ==> Release(s).answers == s.answers[oldest := true];
  }

  lemma {:induction false} StepKeepsAnswers(s: System, event: Event, limit: nat)
    requires Inv(s, limit) && Enabled(s, event)
    ensures KeepsAnswers(s.sem, Step(s, event, limit).sem)
  {
    match event
    case Arrive =>
    case TimerFires(id) =>
    case LetGo(id) => ReleaseKeepsAnswers(s.sem);
  }

  /** In every run each acquire is either waiting or answered, and its answer never changes. */
  lemma {:induction false} EachIsAnsweredOnce(events: seq<Event>, event: Event, id: nat, limit: nat)
    requires IsRun(events, limit) && Enabled(After(events, limit), event) && id < After(events, limit).sem.issued
    ensures var m := After(events, limit).sem; id in m.pending <==> id !in m.answers
    ensures var m, n := After(events, limit).sem, Step(After(events, limit), event, limit).sem;
      id in m.answers ==> id in n.answers && n.answers[id] == m.answers[id]
  {
    RunsKeepInv(events, limit);
    StepKeepsAnswers(After(events, limit), event, limit);
  }

  // What the answers mean.

  /** Told yes: it holds a slot or has given it back. Told no: its timer fired, and nothing else tells no. */
  ghost predicate AnswersMean(events: seq<Event>, s: System) {
    && (forall id :: id in s.sem.answers && s.sem.answers[id] ==> id in s.holders || LetGo(id) in events)
    && (forall id :: id in s.sem.answers && !s.sem.answers[id] <==> TimerFires(id) in events)
  }

  lemma {:induction false} TimeoutMeansNo(before: seq<Event>, s: System, id: nat, limit: nat)
    requires Inv(s, limit) && AnswersMean(before, s) && id in s.sem.pending
    ensures AnswersMean(before + [TimerFires(id)], Step(s, TimerFires(id), limit))
  {
  }

  /** Some acquire may be told yes, and becomes a holder; at most one holder lets go. */
  lemma {:induction false} YesMeansHolder(before: seq<Event>, s: System, event: Event, t: System)
    requires AnswersMean(before, s) && KeepsAnswers(s.sem, t.sem)
    requires match event
      case LetGo(id) => t.holders == s.holders - {id} + Admitted(s.sem, t.sem)
      case Arrive => t.holders == s.holders + Admitted(s.sem, t.sem)
      case TimerFires(_) => false
    requires forall id :: id in t.sem.answers && id !in s.sem.answers ==> t.sem.answers[id]
    ensures AnswersMean(before + [event], t)
  {
    assert event in before + [event];
    assert forall e :: e in before ==> e in before + [event];
    assert forall id :: TimerFires(id) in before + [event] ==> TimerFires(id) in before;
  }

  lemma {:induction false} ReleaseTellsYes(s: State)
    requires Queue(s.waiting, s.pending, s.issued)
    ensures forall id :: id in Release(s).answers && id !in s.answers ==> Release(s).answers[id]
  {
    var oldest := ReleaseServesOldest(s);
  }

  lemma {:induction false} StepKeepsAnswersMean(events: seq<Event>, before: seq<Event>, s: System, event: Event,
                                                limit: nat)
    requires Inv(s, limit) && Enabled(s, event) && AnswersMean(before, s) && events == before + [event]
    ensures AnswersMean(events, Step(s, event, limit))
  {
    StepKeepsAnswers(s, event, limit);
    match event
    case TimerFires(id) => TimeoutMeansNo(before, s, id, limit);
    case Arrive => YesMeansHolder(before, s, event, Step(s, event, limit));
    case LetGo(_) =>
      ReleaseTellsYes(s.sem);
      YesMeansHolder(before, s, event, Step(s, event, limit));
  }

  lemma {:induction false} RunsKeepAnswersMean(events: seq<Event>, limit: nat)
    requires IsRun(events, limit)
    ensures AnswersMean(events, After(events, limit))
  {
    if events != [] {
      var before, event := events[..|events| - 1], events[|events| - 1];
      RunsKeepInv(before, limit);
      RunsKeepAnswersMean(before, limit);
      StepKeepsAnswersMean(events, before, After(before, limit), event, limit);
    }
  }

  /** In every run whoever was told yes holds a slot until it lets go. */
  lemma {:induction false} ToldYesHolds(events: seq<Event>, id: nat, limit: nat)
    requires IsRun(events, limit) && id in After(events, limit).sem.answers && After(events, limit).sem.answers[id]
    ensures id in After(events, limit).holders || LetGo(id) in events
  {
    RunsKeepAnswersMean(events, limit);
  }

  /** In every run whoever timed out was told no, is told nothing else later, and never holds a slot; nobody else
      is told no. */
  lemma {:induction false} TimedOutNeverHolds(events: seq<Event>, id: nat, limit: nat)
    requires IsRun(events, limit)
    ensures var s := After(events, limit);
      && (TimerFires(id) in events <==> id in s.sem.answers && !s.sem.answers[id])
      && (TimerFires(id) in events ==> id !in s.holders)
  {
    RunsKeepInv(events, limit);
    RunsKeepAnswersMean(events, limit);
  }

  /** In every run a slot given back goes straight to the one who has waited longest, if anybody waits. */
  lemma {:induction false} FreedSlotGoesToOldest(events: seq<Event>, id: nat, limit: nat) returns (oldest: nat)
    requires IsRun(events, limit) && id in After(events, limit).holders
    ensures var s, t := After(events, limit), Step(After(events, limit), LetGo(id), limit);
      if s.sem.pending == {} then t.holders == s.holders - {id} && t.sem.active == s.sem.active - 1
      else IsOldest(s.sem, oldest) && t.holders == s.holders - {id} + {oldest} && t.sem.active == s.sem.active
  {
    RunsKeepInv(events, limit);
    var s := After(events, limit);
    oldest := ReleaseServesOldest(s.sem);
    if s.sem.pending == {} {
      assert Admitted(s.sem, Release(s.sem)) == {};
    } else {
      AdmitOne(s.sem, Release(s.sem), oldest);
    }
  }
}
