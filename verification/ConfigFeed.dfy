/** The dynamic-config feed: one timer, one read at a time, retries with back-off. */
module ConfigFeed {
  // The asynchronous code is cut into the steps between its awaits; a read that has started answers in a
  // later step.

  import opened Arithmetic
  import opened Options

  const COALESCE_WINDOW_MS: nat := 200
  const INITIAL_RETRY_MS: nat := 1000
  const MAX_RETRY_MS: nat := 30000

  datatype Feed = Feed(timer: Option<nat>, retryDelayMs: nat, refreshing: bool, refreshAgain: bool, stopped: bool)

  const STARTED := Feed(None, INITIAL_RETRY_MS, false, false, false)

  datatype Event = Notified | TimerFires | Reconcile | ReadSucceeds | ReadFails | Stop

  function QueueSuperseding(f: Feed): Feed { f.(timer := Some(COALESCE_WINDOW_MS)) }

  function QueueRetry(f: Feed): Feed {
    if f.timer.Some? then f
    else f.(timer := Some(f.retryDelayMs), retryDelayMs := Min(f.retryDelayMs * 2, MAX_RETRY_MS))
  }

  function Refresh(f: Feed): Feed {
    if f.refreshing then f.(refreshAgain := true) else f.(refreshing := true)
  }

  function EndRefresh(f: Feed): Feed {
    var ended := f.(refreshing := false);
    if f.refreshAgain && !f.stopped then QueueSuperseding(ended.(refreshAgain := false)) else ended
  }

  function Next(f: Feed, event: Event): Feed {
    match event
    case Notified => QueueSuperseding(f)
    case TimerFires => Refresh(f.(timer := None))
    case Reconcile => Refresh(f)
    case ReadSucceeds => EndRefresh(f.(retryDelayMs := INITIAL_RETRY_MS))
    case ReadFails => EndRefresh(QueueRetry(f))
    case Stop => f.(stopped := true, timer := None)
  }

  class DbConfigFeed {
    var timer: Option<nat>
    var retryDelayMs: nat
    var refreshing: bool
    var refreshAgain: bool
    var stopped: bool

    function View(): Feed
      reads this
    {
      Feed(timer, retryDelayMs, refreshing, refreshAgain, stopped)
    }

    constructor ()
      ensures View() == STARTED
    {
      timer, retryDelayMs, refreshing, refreshAgain, stopped := None, INITIAL_RETRY_MS, false, false, false;
    }

    method OnNotification()
      modifies this
      ensures View() == Next(old(View()), Notified)
    {
      timer := None;
      timer := Some(COALESCE_WINDOW_MS);
    }

    /** Starts a read unless one is running, which is then to be followed by another. */
    method BeginRefresh() returns (readStarts: bool)
      modifies this
      ensures View() == Refresh(old(View())) && readStarts == !old(refreshing)
    {
      if refreshing {
        refreshAgain := true;
        return false;
      }
      refreshing := true;
      return true;
    }

    method OnTimer() returns (readStarts: bool)
      modifies this
      ensures View() == Next(old(View()), TimerFires) && readStarts == !old(refreshing)
    {
      timer := None;
      readStarts := BeginRefresh();
    }

    method OnReconcile() returns (readStarts: bool)
      modifies this
      ensures View() == Next(old(View()), Reconcile) && readStarts == !old(refreshing)
    {
      readStarts := BeginRefresh();
    }

    method FinishRefresh()
      modifies this
      ensures View() == EndRefresh(old(View()))
    {
      refreshing := false;
      if refreshAgain && !stopped {
        refreshAgain := false;
        timer := Some(COALESCE_WINDOW_MS);
      }
    }

    /** The values are applied or rejected here; either way the machine goes on alike. */
    method OnReadSucceeded()
      modifies this
      ensures View() == Next(old(View()), ReadSucceeds)
    {
      retryDelayMs := INITIAL_RETRY_MS;
      FinishRefresh();
    }

    method OnReadFailed()
      modifies this
      ensures View() == Next(old(View()), ReadFails)
    {
      if timer.None? {
        timer := Some(retryDelayMs);
        retryDelayMs := Min(retryDelayMs * 2, MAX_RETRY_MS);
      }
      FinishRefresh();
    }

    method OnStop()
      modifies this
      ensures View() == Next(old(View()), Stop)
    {
      stopped := true;
      timer := None;
    }
  }

  // Runs. The counts beside the machine: notifications delivered so far, how many of them had been
  // delivered when the read in progress started, and when the last successful read did; reads
  // started and finished; retries armed since the last success.

  datatype System = System(
    feed: Feed,
    delivered: nat,
    readKnows: nat,
    covered: nat,
    started: nat,
    finished: nat,
    retries: nat)

  const FRESH := System(STARTED, 0, 0, 0, 0, 0, 0)

  predicate Enabled(f: Feed, event: Event) {
    match event
    case Notified => true
    case TimerFires => f.timer.Some?
    case Reconcile => !f.stopped
    case ReadSucceeds => f.refreshing
    case ReadFails => f.refreshing
    case Stop => !f.stopped
  }

  function Step(s: System, event: Event): System {
    var t := s.(feed := Next(s.feed, event));
    match event
    case Notified => t.(delivered := s.delivered + 1)
    case TimerFires => if s.feed.refreshing then t else t.(readKnows := s.delivered, started := s.started + 1)
    case Reconcile => if s.feed.refreshing then t else t.(readKnows := s.delivered, started := s.started + 1)
    case ReadSucceeds => t.(covered := s.readKnows, finished := s.finished + 1, retries := 0)
    case ReadFails => t.(finished := s.finished + 1, retries := if s.feed.timer.None? then s.retries + 1 else s.retries)
    case Stop => t
  }

  predicate IsRun(events: seq<Event>) {
    events == [] || (IsRun(events[..|events| - 1]) && Enabled(After(events[..|events| - 1]).feed, events[|events| - 1]))
  }

  function After(events: seq<Event>): System {
    if events == [] then FRESH else Step(After(events[..|events| - 1]), events[|events| - 1])
  }

  function Backoff(retries: nat): nat {
    if retries == 0 then INITIAL_RETRY_MS else Min(Backoff(retries - 1) * 2, MAX_RETRY_MS)
  }

  /** A notification not yet read after: something will start a read, or the running read knows of it. */
  predicate OwedIsScheduled(s: System) {
    s.covered < s.delivered ==>
      s.feed.timer.Some? || (s.feed.refreshing && (s.feed.refreshAgain || s.readKnows == s.delivered))
  }

  predicate Inv(s: System) {
    var f := s.feed;
    && s.covered <= s.readKnows <= s.delivered
    && s.started == s.finished + (if f.refreshing then 1 else 0)
    && f.retryDelayMs == Backoff(s.retries)
    && (f.timer.Some? ==> f.timer.value == COALESCE_WINDOW_MS || INITIAL_RETRY_MS <= f.timer.value <= MAX_RETRY_MS)
    && (!f.stopped ==> (f.refreshAgain ==> f.refreshing) && OwedIsScheduled(s))
  }

  lemma {:induction false} BackoffBounds(retries: nat)
    ensures INITIAL_RETRY_MS <= Backoff(retries) <= MAX_RETRY_MS
    ensures retries < 5 ==> Backoff(retries) == INITIAL_RETRY_MS * [1, 2, 4, 8, 16][retries]
    ensures retries >= 5 ==> Backoff(retries) == MAX_RETRY_MS
  {
    if retries > 0 { BackoffBounds(retries - 1); }
  }

  lemma StepKeepsInv(s: System, event: Event)
    requires Inv(s) && Enabled(s.feed, event)
    ensures Inv(Step(s, event))
  {
    BackoffBounds(s.retries);
    BackoffBounds(s.retries + 1);
  }

  lemma {:induction false} RunsKeepInv(events: seq<Event>)
    requires IsRun(events)
    ensures Inv(After(events))
  {
    if events != [] {
      RunsKeepInv(events[..|events| - 1]);
      StepKeepsInv(After(events[..|events| - 1]), events[|events| - 1]);
    }
  }

  /** In every run at most one read is in progress. */
  lemma {:induction false} AtMostOneRead(events: seq<Event>)
    requires IsRun(events)
    ensures After(events).started - After(events).finished == if After(events).feed.refreshing then 1 else 0
  {
    RunsKeepInv(events);
  }

  /** In every run before teardown: a notification without a successful read that started after it
      means that a timer is armed, another read is to follow, or the running one started after it. */
  lemma {:induction false} NotificationsAreNotForgotten(events: seq<Event>)
    requires IsRun(events) && !After(events).feed.stopped
    ensures OwedIsScheduled(After(events))
    ensures !After(events).feed.refreshing && After(events).feed.timer.None?
        ==> After(events).covered == After(events).delivered
  {
    RunsKeepInv(events);
  }

  /** In every run the delay of an armed timer is the coalescing window or between 1 s and 30 s, and
      after so many retries in a row the next one waits 1, 2, 4, 8, 16 and then always 30 s. */
  lemma {:induction false} RetryDelaysAreBounded(events: seq<Event>)
    requires IsRun(events)
    ensures var s := After(events);
      && (s.feed.timer.Some? && s.feed.timer.value != COALESCE_WINDOW_MS
          ==> 1000 <= s.feed.timer.value <= 30000)
      && s.feed.retryDelayMs == if s.retries < 5 then 1000 * [1, 2, 4, 8, 16][s.retries] else 30000
  {
    RunsKeepInv(events);
    BackoffBounds(After(events).retries);
  }

  /** In every run: the timer a step leaves. A notification, and a read asked for meanwhile, wait out the
      coalescing window; a failed read is tried again after 1, 2, 4, 8, 16 and then always 30 s, unless something
      was waiting already. */
  lemma {:induction false} TimersAreArmed(events: seq<Event>, event: Event)
    requires IsRun(events) && Enabled(After(events).feed, event)
    ensures var f, retries := After(events).feed, After(events).retries;
      Next(f, event).timer ==
        match event
        case Notified => Some(200)
        case TimerFires => None
        case Stop => None
        case Reconcile => f.timer
        case ReadSucceeds => if f.refreshAgain && !f.stopped then Some(200) else f.timer
        case ReadFails =>
          if f.refreshAgain && !f.stopped then Some(200)
          else if f.timer.Some? then f.timer
          else Some(if retries < 5 then [1000, 2000, 4000, 8000, 16000][retries] else 30000)
  {
    RunsKeepInv(events);
    BackoffBounds(After(events).retries);
  }

  lemma {:induction false} OneMore(events: seq<Event>, event: Event)
    requires IsRun(events) && Enabled(After(events).feed, event)
    ensures IsRun(events + [event]) && After(events + [event]) == Step(After(events), event)
  {
    assert (events + [event])[..|events|] == events;
  }

  lemma {:induction false} FinishRead(events: seq<Event>)
    requires IsRun(events) && !After(events).feed.stopped && After(events).feed.refreshing
    ensures IsRun(events + [ReadSucceeds])
    ensures var s, t := After(events), After(events + [ReadSucceeds]);
      !t.feed.refreshing && !t.feed.stopped && t.delivered == s.delivered
  {
    OneMore(events, ReadSucceeds);
  }

  lemma {:induction false} FireTimer(events: seq<Event>)
    requires IsRun(events) && !After(events).feed.stopped && !After(events).feed.refreshing
    requires After(events).feed.timer.Some?
    ensures IsRun(events + [TimerFires, ReadSucceeds])
    ensures var s, t := After(events), After(events + [TimerFires, ReadSucceeds]);
      t.covered == t.delivered == s.delivered
  {
    RunsKeepInv(events);
    OneMore(events, TimerFires);
    OneMore(events + [TimerFires], ReadSucceeds);
    assert events + [TimerFires, ReadSucceeds] == events + [TimerFires] + [ReadSucceeds];
  }

  /** From anywhere before teardown the steps already under way suffice: let the running read and the
      armed timer take their turn, let reads succeed, and every notification has been read after. */
  lemma {:induction false} NotificationsCanAlwaysBeRead(events: seq<Event>) returns (more: seq<Event>)
    requires IsRun(events) && !After(events).feed.stopped
    ensures IsRun(events + more) && |more| <= 3 && Notified !in more
    ensures After(events + more).covered == After(events + more).delivered == After(events).delivered
  {
    more := [];
    if After(events).feed.refreshing {
      FinishRead(events);
      more := [ReadSucceeds];
    }
    var sofar := events + more;
    assert more == [] ==> sofar == events;
    if After(sofar).feed.timer.Some? {
      FireTimer(sofar);
      assert events + (more + [TimerFires, ReadSucceeds]) == sofar + [TimerFires, ReadSucceeds];
      more := more + [TimerFires, ReadSucceeds];
    } else {
      RunsKeepInv(sofar);
    }
  }
}
