/** The tether's status writer, cut into the steps between its awaits. */
module StatusWriter {
  // Reports coalesce per installation, one batch is written at a time, and a failed batch is queued again
  // behind whatever arrived meanwhile.

  import opened Arithmetic
  import opened Options

  /** A member's report. order is its arrival number: the writer never looks at it, the laws do. */
  datatype Report = Report(
    installationId: string,
    order: nat,
    groupStage: Option<string>,
    groupGeneration: Option<nat>,
    details: string)

  type Batch = map<string, Report>

  /** Where the running flush stands. Requeue waits to learn which installations still exist. */
  datatype Flush = Idle | Writing(batch: Batch) | Settling | Requeue(batch: Batch, foreignKeyViolation: bool)

  const FLUSH_INTERVAL_MS := 200
  const MAX_RETRY_DELAY_MS := 30000

  datatype Writer = Writer(pending: Batch, timer: Option<nat>, flush: Flush, failedFlushes: nat)

  const STARTED := Writer(map[], None, Idle, 0)

  function FlushDelay(failedFlushes: nat): nat {
    var delay := FLUSH_INTERVAL_MS * Pow2(failedFlushes);
    if delay < MAX_RETRY_DELAY_MS then delay else MAX_RETRY_DELAY_MS
  }

  function ScheduleFlush(w: Writer): Writer {
    if w.timer.Some? || !w.flush.Idle? || w.pending == map[] then w
    else w.(timer := Some(FlushDelay(w.failedFlushes)))
  }

  function Enqueue(pending: Batch, states: seq<Report>): Batch {
    if states == [] then pending
    else Enqueue(pending, states[..|states| - 1])[states[|states| - 1].installationId := states[|states| - 1]]
  }

  function Queue(w: Writer, states: seq<Report>): Writer {
    ScheduleFlush(w.(pending := Enqueue(w.pending, states)))
  }

  function TimerFires(w: Writer): Writer {
    if w.pending == map[] then ScheduleFlush(w.(timer := None, flush := Idle))
    else w.(timer := None, flush := Writing(w.pending), pending := map[])
  }

  function Written(w: Writer): Writer { w.(flush := Settling, failedFlushes := 0) }

  function WriteFailed(w: Writer, foreignKeyViolation: bool): Writer
    requires w.flush.Writing?
  {
    w.(flush := Requeue(w.flush.batch, foreignKeyViolation), failedFlushes := w.failedFlushes + 1)
  }

  function Settled(w: Writer): Writer { ScheduleFlush(w.(flush := Idle)) }

  /** What is still worth writing; without an answer from the database, everything is. */
  function WithoutVanished(batch: Batch, foreignKeyViolation: bool, existing: Option<set<string>>): Batch {
    if foreignKeyViolation && existing.Some? then map id | id in batch && id in existing.value :: batch[id] else batch
  }

  function Checked(w: Writer, existing: Option<set<string>>): Writer
    requires w.flush.Requeue?
  {
    var again := WithoutVanished(w.flush.batch, w.flush.foreignKeyViolation, existing);
    ScheduleFlush(w.(pending := again + w.pending, flush := Idle))
  }

  class StatusWriter {
    var pendingStates: Batch
    var flushTimer: Option<nat>
    var flushing: Flush
    var failedFlushes: nat

    function View(): Writer
      reads this
    {
      Writer(pendingStates, flushTimer, flushing, failedFlushes)
    }

    constructor ()
      ensures View() == STARTED
    {
      pendingStates, flushTimer, flushing, failedFlushes := map[], None, Idle, 0;
    }

    method Schedule()
      modifies this
      ensures View() == ScheduleFlush(old(View()))
    {
      if flushTimer.Some? || !flushing.Idle? || |pendingStates| == 0 {
        return;
      }
      var delayMs := FLUSH_INTERVAL_MS * Pow2(failedFlushes);
      flushTimer := Some(if delayMs < MAX_RETRY_DELAY_MS then delayMs else MAX_RETRY_DELAY_MS);
    }

    method QueueInstallationStates(states: seq<Report>)
      modifies this
      ensures View() == Queue(old(View()), states)
    {
      for i := 0 to |states|
        invariant View() == old(View()).(pending := Enqueue(old(pendingStates), states[..i]))
      {
        assert states[..i + 1][..i] == states[..i];
        pendingStates := pendingStates[states[i].installationId := states[i]];
      }
      assert states[..|states|] == states;
      Schedule();
    }

    method OnTimer()
      modifies this
      ensures View() == TimerFires(old(View()))
    {
      flushTimer := None;
      var batch := pendingStates;
      pendingStates := map[];
      if |batch| == 0 {
        flushing := Idle;
        Schedule();
      } else {
        flushing := Writing(batch);
      }
    }

    method OnWritten()
      modifies this
      ensures View() == Written(old(View()))
    {
      failedFlushes := 0;
      flushing := Settling;
    }

    method OnWriteFailed(foreignKeyViolation: bool)
      requires flushing.Writing?
      modifies this
      ensures View() == WriteFailed(old(View()), foreignKeyViolation)
    {
      failedFlushes := failedFlushes + 1;
      flushing := Requeue(flushing.batch, foreignKeyViolation);
    }

    method OnSettled()
      modifies this
      ensures View() == Settled(old(View()))
    {
      flushing := Idle;
      Schedule();
    }

    /** Puts a failed batch back, except where a newer report is already waiting. */
    method PutBack(again: Batch)
      modifies this`pendingStates
      ensures pendingStates == again + old(pendingStates)
    {
      var ids := again.Keys;
      while ids != {}
        invariant ids <= again.Keys
        invariant pendingStates == (map id | id in again && id !in ids :: again[id]) + old(pendingStates)
        decreases |ids|
      {
        var id :| id in ids;
        if id !in pendingStates {
          pendingStates := pendingStates[id := again[id]];
        }
        ids := ids - {id};
      }
      assert (map id | id in again && id !in ids :: again[id]) == again;
    }

    method OnChecked(existing: Option<set<string>>)
      requires flushing.Requeue?
      modifies this
      ensures View() == Checked(old(View()), existing)
    {
      PutBack(WithoutVanished(flushing.batch, flushing.foreignKeyViolation, existing));
      flushing := Idle;
      Schedule();
    }
  }

  /** The retry delay doubles from 200 ms with every failure in a row and stops at 30 s. */
  lemma {:induction false} FlushDelayGrows(n: nat)
    ensures 200 <= FlushDelay(n) <= FlushDelay(n + 1) <= 30_000
    ensures n <= 7 <==> FlushDelay(n) < 30_000
    ensures n < 7 ==> FlushDelay(n + 1) == 2 * FlushDelay(n)
    ensures FlushDelay(n) == if n <= 7 then [200, 400, 800, 1600, 3200, 6400, 12800, 25600][n] else 30_000
  {
    Pow2Bounds(n);
    Pow2Bounds(n + 1);
    assert Pow2(1) == 2 && Pow2(2) == 4 && Pow2(3) == 8 && Pow2(4) == 16;
    assert Pow2(5) == 32 && Pow2(6) == 64 && Pow2(7) == 128;
  }

  lemma {:induction false} Pow2Bounds(n: nat)
    ensures Pow2(n) <= 128 <==> n <= 7
    ensures n >= 8 ==> Pow2(n) >= 256
  {
    if n <= 8 {
      assert Pow2(1) == 2 && Pow2(2) == 4 && Pow2(3) == 8 && Pow2(4) == 16;
      assert Pow2(5) == 32 && Pow2(6) == 64 && Pow2(7) == 128 && Pow2(8) == 256;
    } else {
      Pow2Bounds(n - 1);
    }
  }

  // The writer and the database together.

  /** gone holds the installations deleted so far, reports everything queued so far in order. */
  datatype System = System(writer: Writer, stored: Batch, gone: set<string>, reports: seq<Report>)

  const FRESH := System(STARTED, map[], {}, [])

  datatype Event =
    | Report(states: seq<Report>)
    | Timer
    | WriteSucceeds
    | WriteFails(foreignKeyViolation: bool, applied: bool)
    | FlushSettles
    | CheckReturns(answered: bool)
    | Deleted(installationId: string)

  /** States arrive numbered in order. */
  predicate Numbered(states: seq<Report>, from: nat) {
    forall i :: 0 <= i < |states| ==> states[i].order == from + i
  }

  predicate Enabled(s: System, event: Event) {
    match event
    case Report(states) => Numbered(states, |s.reports|)
    case Timer => s.writer.timer.Some?
    // A batch naming a deleted installation violates the foreign key and is refused whole.
    case WriteSucceeds => s.writer.flush.Writing? && s.writer.flush.batch.Keys !! s.gone
    // A write can also be reported failed after it was applied, when only the answer is lost.
    case WriteFails(_, applied) => s.writer.flush.Writing? && (applied ==> s.writer.flush.batch.Keys !! s.gone)
    case FlushSettles => s.writer.flush.Settling?
    case CheckReturns(_) => s.writer.flush.Requeue?
    case Deleted(_) => true
  }

  function Step(s: System, event: Event): System
    requires Enabled(s, event)
  {
    var w := s.writer;
    match event
    case Report(states) => s.(writer := Queue(w, states), reports := s.reports + states)
    case Timer => s.(writer := TimerFires(w))
    case WriteSucceeds => s.(writer := Written(w), stored := s.stored + w.flush.batch)
    case WriteFails(fk, applied) =>
      s.(writer := WriteFailed(w, fk), stored := if applied then s.stored + w.flush.batch else s.stored)
    case FlushSettles => s.(writer := Settled(w))
    case CheckReturns(answered) =>
      var ids := w.flush.batch.Keys;
      s.(writer := Checked(w, if answered then Some(ids - s.gone) else None))
    case Deleted(id) => s.(gone := s.gone + {id}, stored := s.stored - {id})
  }

  predicate IsRun(events: seq<Event>)
    decreases |events|, 0
  {
    events == [] || (IsRun(events[..|events| - 1]) && Enabled(After(events[..|events| - 1]), events[|events| - 1]))
  }

  /** The system after any interleaving of steps that can happen. */
  function After(events: seq<Event>): System
    requires IsRun(events)
    decreases |events|, 1
  {
    if events == [] then FRESH else Step(After(events[..|events| - 1]), events[|events| - 1])
  }

  // What every step keeps.

  function InFlight(w: Writer): Batch {
    match w.flush
    case Writing(batch) => batch
    case Requeue(batch, _) => batch
    case _ => map[]
  }

  /** Reports held anywhere are reports that came in, filed under their installation. */
  predicate FromReports(batch: Batch, reports: seq<Report>) {
    forall id :: id in batch ==>
      batch[id].installationId == id && batch[id].order < |reports| && reports[batch[id].order] == batch[id]
  }

  /** Nothing in older is newer than what newer holds for the same installation. */
  predicate NotNewer(older: Batch, newer: Batch) {
    forall id :: id in older && id in newer ==> older[id].order <= newer[id].order
  }

  predicate HoldsReport(batch: Batch, r: Report) {
    r.installationId in batch && batch[r.installationId].order >= r.order
  }

  /** A report was stored, is being written or waits, itself or a newer one, unless its installation is gone. */
  predicate AccountedFor(s: System, r: Report) {
    || r.installationId in s.gone
    || HoldsReport(s.stored, r) || HoldsReport(InFlight(s.writer), r) || HoldsReport(s.writer.pending, r)
  }

  predicate Scheduled(w: Writer) {
    && !(w.timer.Some? && !w.flush.Idle?)
    && (w.pending != map[] ==> w.timer.Some? || !w.flush.Idle?)
  }

  /** Stored, being written and waiting, from the oldest to the newest. */
  predicate FiledBatches(reports: seq<Report>, stored: Batch, inFlight: Batch, pending: Batch) {
    && FromReports(stored, reports) && FromReports(inFlight, reports) && FromReports(pending, reports)
    && NotNewer(stored, inFlight) && NotNewer(stored, pending) && NotNewer(inFlight, pending)
  }

  predicate Filed(s: System) {
    && Numbered(s.reports, 0) && s.stored.Keys !! s.gone
    && FiledBatches(s.reports, s.stored, InFlight(s.writer), s.writer.pending)
  }

  predicate Accounted(s: System) {
    forall i :: 0 <= i < |s.reports| ==> AccountedFor(s, s.reports[i])
  }

  predicate Inv(s: System) { Scheduled(s.writer) && Filed(s) && Accounted(s) }

  /** Where a queued batch entry comes from: it was waiting before, or it is one of the new states. */
  lemma {:induction false} EnqueueEntry(pending: Batch, states: seq<Report>, id: string)
    ensures id in Enqueue(pending, states)
        <==> id in pending || exists i :: 0 <= i < |states| && states[i].installationId == id
    ensures id in Enqueue(pending, states) ==>
      || (id in pending && Enqueue(pending, states)[id] == pending[id])
      || (exists i :: 0 <= i < |states| && states[i].installationId == id && Enqueue(pending, states)[id] == states[i])
  {
    if states != [] {
      var front, last := states[..|states| - 1], states[|states| - 1];
      EnqueueEntry(pending, front, id);
      if i :| 0 <= i < |front| && front[i].installationId == id && id in Enqueue(pending, front)
              && Enqueue(pending, front)[id] == front[i]
      {
        assert states[i] == front[i];
      }
    }
  }

  lemma {:induction false} EnqueueKeepsLatest(pending: Batch, states: seq<Report>, from: nat, i: nat)
    requires Numbered(states, from) && i < |states|
    ensures HoldsReport(Enqueue(pending, states), states[i])
  {
    var front, last := states[..|states| - 1], states[|states| - 1];
    if i < |front| {
      EnqueueKeepsLatest(pending, front, from, i);
    }
  }

  lemma {:induction false} MoreReportsKeepFiled(batch: Batch, reports: seq<Report>, states: seq<Report>)
    requires FromReports(batch, reports)
    ensures FromReports(batch, reports + states)
  {
  }

  lemma {:induction false} EnqueueKeepsFiled(pending: Batch, reports: seq<Report>, states: seq<Report>)
    requires FromReports(pending, reports) && Numbered(states, |reports|)
    ensures FromReports(Enqueue(pending, states), reports + states)
  {
    var after, all := Enqueue(pending, states), reports + states;
    forall id | id in after
      ensures after[id].installationId == id && after[id].order < |all| && all[after[id].order] == after[id]
    {
      EnqueueEntry(pending, states, id);
    }
  }

  lemma {:induction false} EnqueueStaysNewer(older: Batch, pending: Batch, reports: seq<Report>, states: seq<Report>)
    requires FromReports(older, reports) && NotNewer(older, pending) && Numbered(states, |reports|)
    ensures NotNewer(older, Enqueue(pending, states))
  {
    var after := Enqueue(pending, states);
    forall id | id in older && id in after ensures older[id].order <= after[id].order {
      EnqueueEntry(pending, states, id);
    }
  }

  lemma {:induction false} NumberedConcat(reports: seq<Report>, states: seq<Report>)
    requires Numbered(reports, 0) && Numbered(states, |reports|)
    ensures Numbered(reports + states, 0)
  {
  }

  lemma {:induction false} ReportKeepsFiled(s: System, states: seq<Report>)
    requires Filed(s) && Numbered(states, |s.reports|)
    ensures Filed(Step(s, Event.Report(states)))
  {
    var inFlight, pending := InFlight(s.writer), s.writer.pending;
    NumberedConcat(s.reports, states);
    MoreReportsKeepFiled(s.stored, s.reports, states);
    MoreReportsKeepFiled(inFlight, s.reports, states);
    EnqueueKeepsFiled(pending, s.reports, states);
    EnqueueStaysNewer(s.stored, pending, s.reports, states);
    EnqueueStaysNewer(inFlight, pending, s.reports, states);
    assert FiledBatches(s.reports + states, s.stored, inFlight, Enqueue(pending, states));
  }

  lemma ReportKeepsAccounted(s: System, states: seq<Report>)
    requires Accounted(s) && Filed(s) && Numbered(states, |s.reports|)
    ensures Accounted(Step(s, Event.Report(states)))
  {
    var t := Step(s, Event.Report(states));
    var before, after := s.writer.pending, Enqueue(s.writer.pending, states);
    assert t.writer.pending == after;
    forall i | 0 <= i < |t.reports| ensures AccountedFor(t, t.reports[i]) {
      if i < |s.reports| {
        assert AccountedFor(s, s.reports[i]);
        if HoldsReport(before, s.reports[i]) { EnqueueEntry(before, states, s.reports[i].installationId); }
      } else {
        EnqueueKeepsLatest(before, states, |s.reports|, i - |s.reports|);
      }
    }
  }

  lemma {:induction false} TimerKeepsInv(s: System)
    requires Inv(s) && s.writer.timer.Some?
    ensures Inv(Step(s, Timer))
  {
    var t := Step(s, Timer);
    assert FiledBatches(s.reports, t.stored, InFlight(t.writer), t.writer.pending);
    SameAccounts(s, t);
  }

  lemma {:induction false} SettleKeepsInv(s: System)
    requires Inv(s) && s.writer.flush.Settling?
    ensures Inv(Step(s, FlushSettles))
  {
    SameAccounts(s, Step(s, FlushSettles));
  }

  lemma {:induction false} DeletionKeepsInv(s: System, id: string)
    requires Inv(s)
    ensures Inv(Step(s, Deleted(id)))
  {
    var t := Step(s, Deleted(id));
    assert FiledBatches(s.reports, t.stored, InFlight(s.writer), s.writer.pending);
    SameAccounts(s, t);
  }

  /** What holds a report may change as long as the report is held or its installation is gone. */
  lemma {:induction false} SameAccounts(s: System, t: System)
    requires Accounted(s) && t.reports == s.reports
    requires forall r: Report :: AccountedFor(s, r) ==> AccountedFor(t, r)
    ensures Accounted(t)
  {
    forall i | 0 <= i < |t.reports| ensures AccountedFor(t, t.reports[i]) {
      assert AccountedFor(s, s.reports[i]);
    }
  }

  /** Storing a batch moves reports forward only. */
  lemma {:induction false} BatchOverStored(reports: seq<Report>, stored: Batch, batch: Batch, pending: Batch)
    requires FiledBatches(reports, stored, batch, pending)
    ensures FiledBatches(reports, stored + batch, batch, pending)
    ensures forall r :: HoldsReport(stored, r) || HoldsReport(batch, r) ==> HoldsReport(stored + batch, r)
  {
  }

  lemma {:induction false} NothingInFlight(reports: seq<Report>, stored: Batch, batch: Batch, pending: Batch)
    requires FiledBatches(reports, stored, batch, pending)
    ensures FiledBatches(reports, stored, map[], pending)
  {
  }

  lemma {:induction false} SuccessKeepsInv(s: System)
    requires Inv(s) && Enabled(s, WriteSucceeds)
    ensures Inv(Step(s, WriteSucceeds))
  {
    var batch := s.writer.flush.batch;
    BatchOverStored(s.reports, s.stored, batch, s.writer.pending);
    NothingInFlight(s.reports, s.stored + batch, batch, s.writer.pending);
    SameAccounts(s, Step(s, WriteSucceeds));
  }

  lemma {:induction false} FailureKeepsInv(s: System, foreignKeyViolation: bool, applied: bool)
    requires Inv(s) && Enabled(s, WriteFails(foreignKeyViolation, applied))
    ensures Inv(Step(s, WriteFails(foreignKeyViolation, applied)))
  {
    if applied {
      BatchOverStored(s.reports, s.stored, s.writer.flush.batch, s.writer.pending);
    }
    SameAccounts(s, Step(s, WriteFails(foreignKeyViolation, applied)));
  }

  predicate PartOf(part: Batch, batch: Batch) { forall id :: id in part ==> id in batch && part[id] == batch[id] }

  /** What is put back stands behind what arrived meanwhile. */
  lemma {:induction false} PutBackKeepsFiled(reports: seq<Report>, stored: Batch, batch: Batch, pending: Batch,
                                             again: Batch)
    requires FiledBatches(reports, stored, batch, pending) && PartOf(again, batch)
    ensures FiledBatches(reports, stored, map[], again + pending)
    ensures forall r :: HoldsReport(pending, r) || HoldsReport(again, r) ==> HoldsReport(again + pending, r)
  {
  }

  lemma {:induction false} PutBackKeepsAccounts(s: System, t: System, again: Batch)
    requires FiledBatches(s.reports, s.stored, InFlight(s.writer), s.writer.pending)
        && PartOf(again, InFlight(s.writer))
    requires forall id :: id in InFlight(s.writer) && id !in s.gone ==> id in again
    requires t.stored == s.stored && t.gone == s.gone && t.writer.pending == again + s.writer.pending
    ensures forall r: Report :: AccountedFor(s, r) ==> AccountedFor(t, r)
  {
    PutBackKeepsFiled(s.reports, s.stored, InFlight(s.writer), s.writer.pending, again);
    assert forall r: Report :: r.installationId !in s.gone && HoldsReport(InFlight(s.writer), r)
                               ==> HoldsReport(again, r);
  }

  lemma {:induction false} WithoutVanishedIsPart(batch: Batch, foreignKeyViolation: bool, gone: set<string>,
                                                 answered: bool)
    ensures
      var again := WithoutVanished(batch, foreignKeyViolation, if answered then Some(batch.Keys - gone) else None);
      PartOf(again, batch) && forall id :: id in batch && id !in gone ==> id in again
  {
  }

  lemma {:induction false} CheckKeepsInv(s: System, answered: bool)
    requires Inv(s) && s.writer.flush.Requeue?
    ensures Inv(Step(s, CheckReturns(answered)))
  {
    var t, w := Step(s, CheckReturns(answered)), s.writer;
    var existing := if answered then Some(w.flush.batch.Keys - s.gone) else None;
    var again := WithoutVanished(w.flush.batch, w.flush.foreignKeyViolation, existing);
    WithoutVanishedIsPart(w.flush.batch, w.flush.foreignKeyViolation, s.gone, answered);
    PutBackKeepsFiled(s.reports, s.stored, w.flush.batch, w.pending, again);
    PutBackKeepsAccounts(s, t, again);
    SameAccounts(s, t);
  }

  lemma StepKeepsInv(s: System, event: Event)
    requires Inv(s) && Enabled(s, event)
    ensures Inv(Step(s, event))
  {
    match event
    case Report(states) =>
      ReportKeepsFiled(s, states);
      ReportKeepsAccounted(s, states);
    case Timer => TimerKeepsInv(s);
    case WriteSucceeds => SuccessKeepsInv(s);
    case WriteFails(foreignKeyViolation, applied) => FailureKeepsInv(s, foreignKeyViolation, applied);
    case FlushSettles => SettleKeepsInv(s);
    case CheckReturns(answered) => CheckKeepsInv(s, answered);
    case Deleted(id) => DeletionKeepsInv(s, id);
  }

  lemma {:induction false} RunsKeepInv(events: seq<Event>)
    requires IsRun(events)
    ensures Inv(After(events))
  {
    if events != [] {
      var before, event := events[..|events| - 1], events[|events| - 1];
      RunsKeepInv(before);
      StepKeepsInv(After(before), event);
    }
  }

  /** In every run: pending work has a timer armed or a flush running, never both, so one batch at most
      is being written. */
  lemma {:induction false} OneFlushAndNeverStuck(events: seq<Event>)
    requires IsRun(events)
    ensures var w := After(events).writer;
      !(w.timer.Some? && !w.flush.Idle?) && (w.pending != map[] ==> w.timer.Some? || !w.flush.Idle?)
  {
    RunsKeepInv(events);
  }

  /** Writes that failed since the last one that succeeded. */
  function FailuresInARow(events: seq<Event>): nat {
    if events == [] then 0
    else
      match events[|events| - 1]
      case WriteSucceeds => 0
      case WriteFails(_, _) => FailuresInARow(events[..|events| - 1]) + 1
      case _ => FailuresInARow(events[..|events| - 1])
  }

  predicate CountsFailures(w: Writer, failures: nat) {
    && w.failedFlushes == failures && !(w.timer.Some? && !w.flush.Idle?)
    && (w.timer.Some? ==> w.timer.value == FlushDelay(failures))
  }

  lemma {:induction false} StepCountsFailures(s: System, event: Event, failures: nat)
    requires Enabled(s, event) && CountsFailures(s.writer, failures)
    ensures CountsFailures(Step(s, event).writer,
                           match event
                           case WriteSucceeds => 0
                           case WriteFails(_, _) => failures + 1
                           case _ => failures)
  {
  }

  lemma {:induction false} RunsCountFailures(events: seq<Event>)
    requires IsRun(events)
    ensures CountsFailures(After(events).writer, FailuresInARow(events))
  {
    if events != [] {
      var before, event := events[..|events| - 1], events[|events| - 1];
      RunsCountFailures(before);
      StepCountsFailures(After(before), event, FailuresInARow(before));
    }
  }

  /** In every run: an armed timer waits 200 ms, doubled for every write that failed since the last success, and
      never more than 30 s. */
  lemma {:induction false} TimerBacksOff(events: seq<Event>)
    requires IsRun(events) && After(events).writer.timer.Some?
    ensures var n := FailuresInARow(events);
      After(events).writer.timer.value
        == if n <= 7 then [200, 400, 800, 1600, 3200, 6400, 12800, 25600][n] else 30_000
  {
    RunsCountFailures(events);
    FlushDelayGrows(FailuresInARow(events));
  }

  /** In every run: a report is gone from the writer and the database only because a newer one of its
      installation took its place or the installation was deleted. */
  lemma {:induction false} NoReportIsLost(events: seq<Event>, i: nat)
    requires IsRun(events) && i < |After(events).reports|
    ensures AccountedFor(After(events), After(events).reports[i])
  {
    RunsKeepInv(events);
  }

  /** In every run: no step takes the stored state of an installation back to an older report, and only
      a deletion takes it away. */
  lemma {:induction false} StoredNeverGoesBack(events: seq<Event>, event: Event, id: string)
    requires IsRun(events) && Enabled(After(events), event) && id in After(events).stored
    ensures var s, t := After(events), Step(After(events), event);
      if id in t.stored then t.stored[id].order >= s.stored[id].order else event == Deleted(id)
  {
    RunsKeepInv(events);
  }

  /** In every run: once nothing waits and nothing runs, every installation that still exists shows its
      last report. */
  lemma {:induction false} QuietMeansStored(events: seq<Event>, i: nat)
    requires IsRun(events) && After(events).writer.flush.Idle? && After(events).writer.timer.None?
    requires i < |After(events).reports| && After(events).reports[i].installationId !in After(events).gone
    requires forall j :: i < j < |After(events).reports|
               ==> After(events).reports[j].installationId != After(events).reports[i].installationId
    ensures var s := After(events);
      s.reports[i].installationId in s.stored && s.stored[s.reports[i].installationId] == s.reports[i]
  {
    RunsKeepInv(events);
    var s := After(events);
    assert AccountedFor(s, s.reports[i]);
    assert HoldsReport(s.stored, s.reports[i]);
    var shown := s.stored[s.reports[i].installationId];
    assert s.reports[shown.order] == shown;
  }

  // From anywhere the steps under way suffice.

  /** Nothing waits and nothing runs. */
  predicate Quiet(w: Writer) { w.flush.Idle? && w.timer.None? && w.pending == map[] }

  /** No report comes in and no installation is deleted. */
  predicate OnlyOwnSteps(more: seq<Event>) { forall i :: 0 <= i < |more| ==> !more[i].Report? && !more[i].Deleted? }

  ghost predicate LeadsToQuiet(events: seq<Event>, more: seq<Event>)
    requires IsRun(events)
  {
    && IsRun(events + more) && OnlyOwnSteps(more) && Quiet(After(events + more).writer)
    && After(events + more).reports == After(events).reports && After(events + more).gone == After(events).gone
  }

  lemma {:induction false} StayQuiet(events: seq<Event>)
    requires IsRun(events) && Quiet(After(events).writer)
    ensures LeadsToQuiet(events, [])
  {
    assert events + [] == events;
  }

  lemma {:induction false} StepLeadsOn(events: seq<Event>, event: Event, more: seq<Event>)
    requires IsRun(events) && Enabled(After(events), event) && !event.Report? && !event.Deleted?
    requires IsRun(events + [event]) && LeadsToQuiet(events + [event], more)
    ensures LeadsToQuiet(events, [event] + more)
  {
    OneMore(events, event);
    assert events + ([event] + more) == events + [event] + more;
  }

  lemma {:induction false} SuccessLeadsOn(events: seq<Event>) returns (more: seq<Event>)
    requires IsRun(events) && After(events).writer.flush.Writing?
        && After(events).writer.flush.batch.Keys !! After(events).gone
    requires After(events).writer.pending == map[]
    ensures LeadsToQuiet(events, more)
  {
    var written := events + [WriteSucceeds];
    OneFlushAndNeverStuck(events);
    OneMore(events, WriteSucceeds);
    OneMore(written, FlushSettles);
    StayQuiet(written + [FlushSettles]);
    StepLeadsOn(written, FlushSettles, []);
    StepLeadsOn(events, WriteSucceeds, [FlushSettles] + []);
    more := [WriteSucceeds] + ([FlushSettles] + []);
  }

  /** A batch naming a deleted installation fails, loses that part and goes back. */
  lemma {:induction false} FailureLeadsOn(events: seq<Event>) returns (more: seq<Event>)
    requires IsRun(events) && After(events).writer.flush.Writing? && After(events).writer.pending == map[]
    ensures LeadsToQuiet(events, more)
  {
    var failed := events + [WriteFails(true, false)];
    OneFlushAndNeverStuck(events);
    OneMore(events, WriteFails(true, false));
    var checked := failed + [CheckReturns(true)];
    OneMore(failed, CheckReturns(true));
    if After(checked).writer.pending == map[] {
      more := [];
      StayQuiet(checked);
    } else {
      var flushing := checked + [Timer];
      OneMore(checked, Timer);
      more := SuccessLeadsOn(flushing);
      StepLeadsOn(checked, Timer, more);
      more := [Timer] + more;
    }
    StepLeadsOn(failed, CheckReturns(true), more);
    StepLeadsOn(events, WriteFails(true, false), [CheckReturns(true)] + more);
    more := [WriteFails(true, false)] + ([CheckReturns(true)] + more);
  }

  /** An idle writer: the timer, if armed, takes what is pending. */
  lemma {:induction false} IdleLeadsOn(events: seq<Event>) returns (more: seq<Event>)
    requires IsRun(events) && After(events).writer.flush.Idle?
    ensures LeadsToQuiet(events, more)
  {
    RunsKeepInv(events);
    if After(events).writer.timer.None? {
      more := [];
      StayQuiet(events);
    } else {
      var fired := events + [Timer];
      OneMore(events, Timer);
      if After(events).writer.pending == map[] {
        more := [];
        StayQuiet(fired);
      } else if After(fired).writer.flush.batch.Keys !! After(fired).gone {
        more := SuccessLeadsOn(fired);
      } else {
        more := FailureLeadsOn(fired);
      }
      StepLeadsOn(events, Timer, more);
      more := [Timer] + more;
    }
  }

  lemma {:induction false} NextIdleLeadsOn(events: seq<Event>, event: Event) returns (more: seq<Event>)
    requires IsRun(events) && Enabled(After(events), event) && (event.FlushSettles? || event.CheckReturns?)
    ensures LeadsToQuiet(events, more)
  {
    OneMore(events, event);
    more := IdleLeadsOn(events + [event]);
    StepLeadsOn(events, event, more);
    more := [event] + more;
  }

  /** In every run, whatever phase the flush is in and whatever was deleted: some steps of the writer alone
      leave nothing waiting and nothing running. */
  lemma {:induction false} WaitingWorkCanFinish(events: seq<Event>) returns (more: seq<Event>)
    requires IsRun(events)
    ensures LeadsToQuiet(events, more)
  {
    match After(events).writer.flush
    case Idle => more := IdleLeadsOn(events);
    case Settling => more := NextIdleLeadsOn(events, FlushSettles);
    case Requeue(_, _) => more := NextIdleLeadsOn(events, CheckReturns(true));
    case Writing(batch) =>
      if batch.Keys !! After(events).gone {
        OneMore(events, WriteSucceeds);
        more := NextIdleLeadsOn(events + [WriteSucceeds], FlushSettles);
        StepLeadsOn(events, WriteSucceeds, more);
        more := [WriteSucceeds] + more;
      } else {
        OneMore(events, WriteFails(true, false));
        more := NextIdleLeadsOn(events + [WriteFails(true, false)], CheckReturns(true));
        StepLeadsOn(events, WriteFails(true, false), more);
        more := [WriteFails(true, false)] + more;
      }
  }

  predicate Shows(stored: Batch, r: Report) { r.installationId in stored && stored[r.installationId] == r }

  /** The last report of an installation that still exists. */
  predicate IsLastReport(s: System, i: nat) {
    && i < |s.reports| && s.reports[i].installationId !in s.gone
    && forall j :: i < j < |s.reports| ==> s.reports[j].installationId != s.reports[i].installationId
  }

  /** So the last report of every installation that still exists can reach the database. */
  lemma {:induction false} LastReportsCanBeStored(events: seq<Event>) returns (more: seq<Event>)
    requires IsRun(events)
    ensures LeadsToQuiet(events, more)
    ensures forall i: nat :: IsLastReport(After(events), i)
              ==> Shows(After(events + more).stored, After(events).reports[i])
  {
    more := WaitingWorkCanFinish(events);
    forall i: nat | IsLastReport(After(events), i) ensures Shows(After(events + more).stored,
      After(events).reports[i]) {
      QuietMeansStored(events + more, i);
    }
  }

  lemma {:induction false} OneMore(events: seq<Event>, event: Event)
    requires IsRun(events) && Enabled(After(events), event)
    ensures IsRun(events + [event]) && After(events + [event]) == Step(After(events), event)
  {
    assert (events + [event])[..|events|] == events;
  }
}
