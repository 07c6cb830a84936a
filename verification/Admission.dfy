/** Admission of requests to an installation, counted in the shared cache. */
module Admission {
  import opened Options

  /** A quarter of the engine's own batch, rounded up and at least one, may wait in its queue. */
  function AdmissionLimit(maxNumSeqs: nat): (limit: nat)
    ensures limit > maxNumSeqs
    ensures 4 * (limit - maxNumSeqs - 1) < maxNumSeqs || limit == maxNumSeqs + 1
    ensures 4 * (limit - maxNumSeqs) >= maxNumSeqs
  {
    var share := (maxNumSeqs + 3) / 4;
    maxNumSeqs + if share > 1 then share else 1
  }

  datatype CacheAnswer = Granted | Refused | Failed

  /** A release handed out. counted is the installation whose counter it holds up, None for one that does nothing. */
  datatype Ticket = Ticket(counted: Option<string>, released: bool)

  datatype State = State(counters: map<string, int>, tickets: seq<Ticket>)

  const CREATED := State(map[], [])

  function Counter(s: State, installation: string): int {
    if installation in s.counters then s.counters[installation] else 0
  }

  /** What the cache's conditional increment answers. */
  function TryIncr(s: State, installation: string, limit: nat, fails: bool): CacheAnswer {
    if fails then Failed else if Counter(s, installation) >= limit then Refused else Granted
  }

  function Admit(s: State, installation: string, maxNumSeqs: Option<nat>, fails: bool): State {
    if maxNumSeqs.None? then s.(tickets := s.tickets + [Ticket(None, false)])
    else match TryIncr(s, installation, AdmissionLimit(maxNumSeqs.value), fails)
      case Failed => s.(tickets := s.tickets + [Ticket(None, false)])
      case Refused => s
      case Granted => State(s.counters[installation := Counter(s, installation) + 1],
                            s.tickets + [Ticket(Some(installation), false)])
  }

  function Release(s: State, ticket: nat, fails: bool): State
    requires ticket < |s.tickets|
  {
    var t := s.tickets[ticket];
    if t.counted.None? || t.released then s
    else
      var marked := s.(tickets := s.tickets[ticket := t.(released := true)]);
      if fails || t.counted.value !in s.counters then marked
      else marked.(counters := s.counters[t.counted.value := s.counters[t.counted.value] - 1])
  }

  class Admissions {
    var counters: map<string, int>
    var tickets: seq<Ticket>

    function View(): State
      reads this
    {
      State(counters, tickets)
    }

    constructor ()
      ensures View() == CREATED
    {
      counters, tickets := map[], [];
    }

    method OnAdmit(installation: string, maxNumSeqs: Option<nat>, fails: bool) returns (ticket: Option<nat>)
      modifies this
      ensures View() == Admit(old(View()), installation, maxNumSeqs, fails)
      ensures ticket == if |tickets| > old(|tickets|) then Some(old(|tickets|)) else None
    {
      if maxNumSeqs.None? || fails {
        tickets := tickets + [Ticket(None, false)];
        return Some(|tickets| - 1);
      }
      var current := if installation in counters then counters[installation] else 0;
      if current >= AdmissionLimit(maxNumSeqs.value) {
        return None;
      }
      counters := counters[installation := current + 1];
      tickets := tickets + [Ticket(Some(installation), false)];
      return Some(|tickets| - 1);
    }

    method OnRelease(ticket: nat, fails: bool)
      requires ticket < |tickets|
      modifies this
      ensures View() == Release(old(View()), ticket, fails)
    {
      var t := tickets[ticket];
      if t.counted.None? || t.released {
        return;
      }
      tickets := tickets[ticket := t.(released := true)];
      if !fails && t.counted.value in counters {
        counters := counters[t.counted.value := counters[t.counted.value] - 1];
      }
    }
  }

  // Runs of any number of requests. Releases may be called at any time, any number of times, an increment
  // or a decrement may fail, and a counter may expire or be evicted.

  datatype Event =
    | OnAdmit(installation: string, fails: bool)
    | OnRelease(ticket: nat, fails: bool)
    | Expires(installation: string)

  predicate Enabled(s: State, event: Event) {
    event.OnRelease? ==> event.ticket < |s.tickets|
  }

  function Step(s: State, event: Event, maxNumSeqs: string -> Option<nat>): State
    requires Enabled(s, event)
  {
    match event
    case OnAdmit(installation, fails) => Admit(s, installation, maxNumSeqs(installation), fails)
    case OnRelease(ticket, fails) => Release(s, ticket, fails)
    case Expires(installation) => s.(counters := s.counters - {installation})
  }

  predicate IsRun(events: seq<Event>, maxNumSeqs: string -> Option<nat>)
    decreases |events|, 0
  {
    events == [] ||
    var before, last := events[..|events| - 1], events[|events| - 1];
    IsRun(before, maxNumSeqs) && Enabled(After(before, maxNumSeqs), last)
  }

  function After(events: seq<Event>, maxNumSeqs: string -> Option<nat>): State
    requires IsRun(events, maxNumSeqs)
    decreases |events|, 1
  {
    if events == [] then CREATED else Step(After(events[..|events| - 1], maxNumSeqs), events[|events| - 1], maxNumSeqs)
  }

  predicate Holds(t: Ticket, installation: string) { t.counted == Some(installation) && !t.released }

  /** The admissions of an installation that are handed out and not given back. */
  function Held(tickets: seq<Ticket>, installation: string): set<nat> {
    set i: nat | i < |tickets| && Holds(tickets[i], installation)
  }

  /** No admission is counted for an installation without a limit. */
  function LimitOf(maxNumSeqs: Option<nat>): nat {
    match maxNumSeqs
    case Some(n) => AdmissionLimit(n)
    case None => 0
  }

  /** lost bounds the admissions that expired counters have forgotten. */
  predicate CountsMatch(s: State, limit: Option<nat>, exact: bool, lost: nat, installation: string) {
    && |Held(s.tickets, installation)| <= Counter(s, installation) + lost
    && (exact ==> |Held(s.tickets, installation)| == Counter(s, installation))
    && Counter(s, installation) <= LimitOf(limit)
    && (limit.None? ==> Counter(s, installation) == 0)
  }

  predicate NothingLost(events: seq<Event>, installation: string) {
    forall i :: 0 <= i < |events| ==> (events[i].OnRelease? ==> !events[i].fails) && events[i] != Expires(installation)
  }

  function Expirations(events: seq<Event>, installation: string): nat {
    if events == [] then 0
    else
      var before, last := events[..|events| - 1], events[|events| - 1];
      Expirations(before, installation) + if last == Expires(installation) then 1 else 0
  }

  lemma AppendedTicket(tickets: seq<Ticket>, t: Ticket, installation: string)
    ensures Held(tickets + [t], installation)
      == Held(tickets, installation) + if Holds(t, installation) then {|tickets|} else {}
    ensures |Held(tickets + [t], installation)|
      == |Held(tickets, installation)| + if Holds(t, installation) then 1 else 0
  {
    assert |tickets| !in Held(tickets, installation);
    assert Held(tickets + [t], installation)
      == Held(tickets, installation) + if Holds(t, installation) then {|tickets|} else {};
  }

  lemma ReleasedTicket(tickets: seq<Ticket>, i: nat, installation: string)
    requires i < |tickets| && Holds(tickets[i], installation)
    ensures forall other :: Held(tickets[i := tickets[i].(released := true)], other)
              == Held(tickets, other) - if other == installation then {i} else {}
    ensures |Held(tickets[i := tickets[i].(released := true)], installation)| == |Held(tickets, installation)| - 1
  {
    var after := tickets[i := tickets[i].(released := true)];
    forall other ensures Held(after, other) == Held(tickets, other) - if other == installation then {i} else {} {
    }
    assert i in Held(tickets, installation);
  }

  lemma AdmitKeepsCounts(s: State, i: string, limit: Option<nat>, fails: bool, installation: string,
                         ofThis: Option<nat>, exact: bool, lost: nat)
    requires CountsMatch(s, ofThis, exact, lost, installation) && (i == installation ==> limit == ofThis)
    ensures CountsMatch(Admit(s, i, limit, fails), ofThis, exact, lost, installation)
  {
    AppendedTicket(s.tickets, Ticket(None, false), installation);
    AppendedTicket(s.tickets, Ticket(Some(i), false), installation);
  }

  lemma ReleaseKeepsCounts(s: State, ticket: nat, fails: bool, installation: string, ofThis: Option<nat>, exact: bool,
                           lost: nat)
    requires ticket < |s.tickets| && CountsMatch(s, ofThis, exact, lost, installation)
    requires ofThis.None? ==> Held(s.tickets, installation) == {}
    ensures CountsMatch(Release(s, ticket, fails), ofThis, exact && !fails, lost, installation)
  {
    var t := s.tickets[ticket];
    if t.counted.Some? && !t.released {
      ReleasedTicket(s.tickets, ticket, t.counted.value);
      var left := Held(s.tickets[ticket := t.(released := true)], installation);
      assert t.counted.value != installation ==> left == Held(s.tickets, installation);
      assert Release(s, ticket, fails).tickets == s.tickets[ticket := t.(released := true)];
      assert t.counted.value == installation ==> ticket in Held(s.tickets, installation);
    }
  }

  lemma {:induction false} ExpiryKeepsCounts(s: State, i: string, installation: string, ofThis: Option<nat>,
                                             exact: bool, lost: nat)
    requires CountsMatch(s, ofThis, exact, lost, installation)
    ensures CountsMatch(s.(counters := s.counters - {i}), ofThis, exact && i != installation,
                        lost + if i == installation then LimitOf(ofThis) else 0, installation)
  {
  }

  lemma {:induction false} Times(n: nat, limit: nat)
    ensures (n + 1) * limit == n * limit + limit
  {
  }

  lemma {:induction false} StepKeepsCounts(s: State, event: Event, maxNumSeqs: string -> Option<nat>,
                                           installation: string, exact: bool, n: nat)
    requires Enabled(s, event)
    requires var limit := maxNumSeqs(installation); CountsMatch(s, limit, exact, n * LimitOf(limit), installation)
    ensures
      var limit, gone := maxNumSeqs(installation), event == Expires(installation);
      CountsMatch(Step(s, event, maxNumSeqs), limit, exact && !gone && !(event.OnRelease? && event.fails),
                  (n + if gone then 1 else 0) * LimitOf(limit), installation)
  {
    var limit := maxNumSeqs(installation);
    var lost := n * LimitOf(limit);
    match event
    case OnAdmit(i, fails) => AdmitKeepsCounts(s, i, maxNumSeqs(i), fails, installation, limit, exact, lost);
    case OnRelease(ticket, fails) => ReleaseKeepsCounts(s, ticket, fails, installation, limit, exact, lost);
    case Expires(i) =>
      ExpiryKeepsCounts(s, i, installation, limit, exact, lost);
      Times(n, LimitOf(limit));
  }

  lemma {:induction false} NothingLostBefore(events: seq<Event>, installation: string)
    requires events != [] && NothingLost(events, installation)
    ensures NothingLost(events[..|events| - 1], installation)
    ensures var last := events[|events| - 1]; last != Expires(installation) && !(last.OnRelease? && last.fails)
  {
  }

  lemma {:induction false} RunsKeepCounts(events: seq<Event>, maxNumSeqs: string -> Option<nat>, installation: string)
    requires IsRun(events, maxNumSeqs)
    ensures var limit := maxNumSeqs(installation);
      CountsMatch(After(events, maxNumSeqs), limit, NothingLost(events, installation),
                  Expirations(events, installation) * LimitOf(limit), installation)
  {
    if events == [] {
      assert Held([], installation) == {};
    } else {
      var before, last := events[..|events| - 1], events[|events| - 1];
      RunsKeepCounts(before, maxNumSeqs, installation);
      StepKeepsCounts(After(before, maxNumSeqs), last, maxNumSeqs, installation, NothingLost(before, installation),
                      Expirations(before, installation));
      if NothingLost(events, installation) {
        NothingLostBefore(events, installation);
      }
    }
  }

  /** However many requests are admitted and released in whatever order, and whatever increments and
      decrements fail: without an expiry the counted admissions held stay within the limit, and every expiry
      of the counter lets in at most the limit again. While also no decrement failed, the counter is exactly
      their number. An installation without a limit is never counted. */
  lemma {:induction false} HeldIsBounded(events: seq<Event>, maxNumSeqs: string -> Option<nat>, installation: string)
    requires IsRun(events, maxNumSeqs)
    ensures var s := After(events, maxNumSeqs); var held := |Held(s.tickets, installation)|;
      && held <= (Expirations(events, installation) + 1) * LimitOf(maxNumSeqs(installation))
      && (Expirations(events, installation) == 0 ==> held <= LimitOf(maxNumSeqs(installation)))
      && (NothingLost(events, installation) ==> Counter(s, installation) == held)
  {
    RunsKeepCounts(events, maxNumSeqs, installation);
    Times(Expirations(events, installation), LimitOf(maxNumSeqs(installation)));
  }

  lemma {:induction false} OneMore(events: seq<Event>, event: Event, maxNumSeqs: string -> Option<nat>,
                                   installation: string)
    requires IsRun(events, maxNumSeqs) && Enabled(After(events, maxNumSeqs), event)
    ensures IsRun(events + [event], maxNumSeqs)
    ensures After(events + [event], maxNumSeqs) == Step(After(events, maxNumSeqs), event, maxNumSeqs)
    ensures Expirations(events + [event], installation)
      == Expirations(events, installation) + if event == Expires(installation) then 1 else 0
  {
    assert (events + [event])[..|events|] == events;
  }

  /** Requests come in while there is room, and none is given back. */
  lemma {:induction false} Fill(events: seq<Event>, maxNumSeqs: string -> Option<nat>, installation: string, k: nat)
    returns (more: seq<Event>)
    requires IsRun(events, maxNumSeqs) && maxNumSeqs(installation).Some?
    requires Counter(After(events, maxNumSeqs), installation) + k <= LimitOf(maxNumSeqs(installation))
    ensures IsRun(more, maxNumSeqs) && Expirations(more, installation) == Expirations(events, installation)
    ensures var s, t := After(events, maxNumSeqs), After(more, maxNumSeqs);
      && Counter(t, installation) == Counter(s, installation) + k
      && |Held(t.tickets, installation)| == |Held(s.tickets, installation)| + k
  {
    more := events;
    if k > 0 {
      more := Fill(events, maxNumSeqs, installation, k - 1);
      AppendedTicket(After(more, maxNumSeqs).tickets, Ticket(Some(installation), false), installation);
      OneMore(more, OnAdmit(installation, false), maxNumSeqs, installation);
      more := more + [OnAdmit(installation, false)];
    }
  }

  /** The bound is reached for every limit and every number of expiries: each expiry forgets requests that are
      still held, and as many again are admitted. */
  lemma {:induction false} ExpiryCanOverfill(maxNumSeqs: string -> Option<nat>, installation: string, n: nat)
    returns (events: seq<Event>)
    requires maxNumSeqs(installation).Some?
    ensures IsRun(events, maxNumSeqs) && Expirations(events, installation) == n
    ensures |Held(After(events, maxNumSeqs).tickets, installation)| == (n + 1) * LimitOf(maxNumSeqs(installation))
  {
    var limit := LimitOf(maxNumSeqs(installation));
    events := [];
    assert Held([], installation) == {};
    if n > 0 {
      events := ExpiryCanOverfill(maxNumSeqs, installation, n - 1);
      OneMore(events, Expires(installation), maxNumSeqs, installation);
      events := events + [Expires(installation)];
      Times(n, limit);
    }
    events := Fill(events, maxNumSeqs, installation, limit);
  }

  /** While nothing failed or expired, a request is refused exactly when its installation is full. */
  lemma {:induction false} RefusedIffFull(events: seq<Event>, maxNumSeqs: string -> Option<nat>, installation: string)
    requires IsRun(events, maxNumSeqs) && NothingLost(events, installation) && maxNumSeqs(installation).Some?
    ensures var s := After(events, maxNumSeqs); var limit := AdmissionLimit(maxNumSeqs(installation).value);
      TryIncr(s, installation, limit, false) == Refused <==> |Held(s.tickets, installation)| == limit
  {
    RunsKeepCounts(events, maxNumSeqs, installation);
  }

  /** Whatever happened before: an unlimited installation and a failing cache always let a request in, uncounted;
      otherwise it is let in and counted exactly below the limit. */
  lemma {:induction false} LetInUnlessFull(s: State, installation: string, maxNumSeqs: Option<nat>, fails: bool)
    ensures var t := Admit(s, installation, maxNumSeqs, fails);
      if maxNumSeqs.None? || fails then t == s.(tickets := s.tickets + [Ticket(None, false)])
      else if Counter(s, installation) < AdmissionLimit(maxNumSeqs.value) then
        && t.tickets == s.tickets + [Ticket(Some(installation), false)]
        && Counter(t, installation) == Counter(s, installation) + 1
        && forall other :: other != installation ==> Counter(t, other) == Counter(s, other)
      else t == s
  {
  }

  /** Releasing frees the slot of that one admission and a second call changes nothing. */
  lemma ReleaseIsOnce(s: State, ticket: nat, installation: string, fails: bool, again: bool)
    requires ticket < |s.tickets|
    ensures var t := Release(s, ticket, fails);
      && Release(t, ticket, again) == t
      && Held(t.tickets, installation) == Held(s.tickets, installation) - {ticket}
  {
    var t := s.tickets[ticket];
    if t.counted.Some? && !t.released {
      ReleasedTicket(s.tickets, ticket, t.counted.value);
    }
  }

  /** Admitting and then releasing leaves every counter as it was. */
  lemma ReleaseUndoesAdmit(s: State, installation: string, maxNumSeqs: Option<nat>, fails: bool, other: string)
    requires |Admit(s, installation, maxNumSeqs, fails).tickets| > |s.tickets|
    ensures Counter(Release(Admit(s, installation, maxNumSeqs, fails), |s.tickets|, false), other) == Counter(s, other)
  {
  }
}
