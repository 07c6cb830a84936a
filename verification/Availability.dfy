/** Which nodes are connected, and the per-node chain of database writes that records it. Each write
    waits for the one before it and looks at the connection map only when it runs. */
module Availability {
  import opened Options

  datatype Phase = Waiting | Running(available: bool) | Done

  /** A link of a node's promise chain: what it waits for, and how far it is. */
  datatype Write = Write(nodeId: string, previous: Option<nat>, phase: Phase)

  datatype State = State(
    connections: map<string, nat>,
    nextConnectionId: nat,
    pendingWrites: map<string, nat>,
    writes: seq<Write>,
    stored: map<string, bool>)

  const STARTED := State(map[], 1, map[], [], map[])

  function SyncAvailability(s: State, nodeId: string): State {
    var previous := if nodeId in s.pendingWrites then Some(s.pendingWrites[nodeId]) else None;
    s.(writes := s.writes + [Write(nodeId, previous, Waiting)], pendingWrites := s.pendingWrites[nodeId := |s.writes|])
  }

  function AddConnection(s: State, nodeId: string): State {
    SyncAvailability(
      s.(connections := s.connections[nodeId := s.nextConnectionId],
         nextConnectionId := s.nextConnectionId + 1), nodeId)
  }

  function RemoveConnection(s: State, nodeId: string, connId: Option<nat>): State {
    if nodeId !in s.connections || (connId.Some? && s.connections[nodeId] != connId.value) then s
    else SyncAvailability(s.(connections := s.connections - {nodeId}), nodeId)
  }

  /** A write's turn has come: it reads the map now. */
  function StartWrite(s: State, w: nat): State
    requires w < |s.writes|
  {
    var write := s.writes[w];
    s.(writes := s.writes[w := write.(phase := Running(write.nodeId in s.connections))])
  }

  function LandWrite(s: State, w: nat): State
    requires w < |s.writes| && s.writes[w].phase.Running?
  {
    var write := s.writes[w];
    s.(writes := s.writes[w := write.(phase := Done)], stored := s.stored[write.nodeId := write.phase.available])
  }

  /** The chain is forgotten once its last link is done. */
  function Forget(s: State, w: nat): State
    requires w < |s.writes|
  {
    var nodeId := s.writes[w].nodeId;
    if nodeId in s.pendingWrites && s.pendingWrites[nodeId] == w then
      s.(pendingWrites := s.pendingWrites - {nodeId})
    else s
  }

  class Connections {
    var connections: map<string, nat>
    var nextConnectionId: nat
    var pendingWrites: map<string, nat>
    var writes: seq<Write>
    var stored: map<string, bool>

    function View(): State
      reads this
    {
      State(connections, nextConnectionId, pendingWrites, writes, stored)
    }

    constructor ()
      ensures View() == STARTED
    {
      connections, nextConnectionId, pendingWrites, writes, stored := map[], 1, map[], [], map[];
    }

    method Sync(nodeId: string)
      modifies this
      ensures View() == SyncAvailability(old(View()), nodeId)
    {
      var previous := if nodeId in pendingWrites then Some(pendingWrites[nodeId]) else None;
      var next := |writes|;
      writes := writes + [Write(nodeId, previous, Waiting)];
      pendingWrites := pendingWrites[nodeId := next];
    }

    method Add(nodeId: string) returns (connId: nat)
      modifies this
      ensures View() == AddConnection(old(View()), nodeId)
      ensures connId == old(nextConnectionId) && connections[nodeId] == connId
    {
      connId := nextConnectionId;
      nextConnectionId := nextConnectionId + 1;
      connections := connections[nodeId := connId];
      Sync(nodeId);
    }

    method Remove(nodeId: string, connId: Option<nat>)
      modifies this
      ensures View() == RemoveConnection(old(View()), nodeId, connId)
    {
      if nodeId !in connections {
        return;
      }
      if connId.Some? && connections[nodeId] != connId.value {
        return;
      }
      connections := connections - {nodeId};
      Sync(nodeId);
    }

    method OnTurn(w: nat)
      requires w < |writes|
      modifies this`writes
      ensures View() == StartWrite(old(View()), w)
    {
      var available := writes[w].nodeId in connections;
      writes := writes[w := writes[w].(phase := Running(available))];
    }

    method OnLanded(w: nat)
      requires w < |writes| && writes[w].phase.Running?
      modifies this`writes, this`stored
      ensures View() == LandWrite(old(View()), w)
    {
      stored := stored[writes[w].nodeId := writes[w].phase.available];
      writes := writes[w := writes[w].(phase := Done)];
    }

    method OnSettled(w: nat)
      requires w < |writes|
      modifies this`pendingWrites
      ensures View() == Forget(old(View()), w)
    {
      var nodeId := writes[w].nodeId;
      if nodeId in pendingWrites && pendingWrites[nodeId] == w {
        pendingWrites := pendingWrites - {nodeId};
      }
    }
  }

  // Runs.

  datatype Event =
    | Connects(nodeId: string)
    | Disconnects(nodeId: string, connId: Option<nat>)
    | TurnComes(write: nat)
    | Lands(write: nat)
    | Settles(write: nat)

  predicate MayStart(s: State, w: nat) {
    && w < |s.writes| && s.writes[w].phase.Waiting?
    && (s.writes[w].previous.Some? ==>
          s.writes[w].previous.value < |s.writes| && s.writes[s.writes[w].previous.value].phase.Done?)
  }

  predicate Enabled(s: State, event: Event) {
    match event
    case Connects(_) => true
    case Disconnects(_, _) => true
    case TurnComes(w) => MayStart(s, w)
    case Lands(w) => w < |s.writes| && s.writes[w].phase.Running?
    case Settles(w) => w < |s.writes| && s.writes[w].phase.Done?
  }

  function Step(s: State, event: Event): State
    requires Enabled(s, event)
  {
    match event
    case Connects(nodeId) => AddConnection(s, nodeId)
    case Disconnects(nodeId, connId) => RemoveConnection(s, nodeId, connId)
    case TurnComes(w) => StartWrite(s, w)
    case Lands(w) => LandWrite(s, w)
    case Settles(w) => Forget(s, w)
  }

  predicate IsRun(events: seq<Event>)
    decreases |events|, 0
  {
    events == [] || (IsRun(events[..|events| - 1]) && Enabled(After(events[..|events| - 1]), events[|events| - 1]))
  }

  function After(events: seq<Event>): State
    requires IsRun(events)
    decreases |events|, 1
  {
    if events == [] then STARTED else Step(After(events[..|events| - 1]), events[|events| - 1])
  }

  predicate Of(s: State, i: nat, nodeId: string) { i < |s.writes| && s.writes[i].nodeId == nodeId }

  /** Write i is over, or j waits for it or for a later one of the node. */
  predicate Ordered(s: State, i: nat, j: nat)
    requires i < |s.writes| && j < |s.writes|
  {
    || s.writes[i].phase.Done?
    || (s.writes[j].phase.Waiting? && s.writes[j].previous.Some? && i <= s.writes[j].previous.value)
  }

  predicate Chained(s: State) {
    && (forall i, j :: 0 <= i < j < |s.writes| && s.writes[i].nodeId == s.writes[j].nodeId ==> Ordered(s, i, j))
    && (forall j :: 0 <= j < |s.writes| && s.writes[j].previous.Some? ==>
          s.writes[j].previous.value < j && Of(s, s.writes[j].previous.value, s.writes[j].nodeId))
  }

  /** The remembered link is the node's last; a node without one has no write left to do. */
  predicate Remembered(s: State) {
    && (forall n :: n in s.pendingWrites ==> Of(s, s.pendingWrites[n], n))
    && (forall i :: 0 <= i < |s.writes| ==>
          if s.writes[i].nodeId in s.pendingWrites then i <= s.pendingWrites[s.writes[i].nodeId]
          else s.writes[i].phase.Done?)
  }

  predicate IsLast(s: State, i: nat) {
    i < |s.writes| && forall j :: i < j < |s.writes| ==> s.writes[j].nodeId != s.writes[i].nodeId
  }

  predicate CurrentAt(s: State, i: nat)
    requires i < |s.writes|
  {
    var n := s.writes[i].nodeId;
    match s.writes[i].phase
    case Waiting => true
    case Running(available) => available == (n in s.connections)
    case Done => n in s.stored && s.stored[n] == (n in s.connections)
  }

  /** Once it has run, a node's last write carries what the map says now. */
  predicate LastIsCurrent(s: State) {
    forall i :: 0 <= i < |s.writes| && IsLast(s, i) ==> CurrentAt(s, i)
  }

  ghost predicate HasWrite(s: State, n: string) { exists i: nat :: Of(s, i, n) }

  ghost predicate Known(s: State) {
    forall n :: n in s.connections ==> s.connections[n] < s.nextConnectionId && HasWrite(s, n)
  }

  ghost predicate Inv(s: State) { Chained(s) && Remembered(s) && LastIsCurrent(s) && Known(s) }

  // A change of the map followed by a new link.

  /** The map may differ for n only, and n's number stays below the next one. */
  predicate ChangedAt(s: State, t: State, n: string) {
    && t.writes == s.writes && t.pendingWrites == s.pendingWrites && t.stored == s.stored
    && s.nextConnectionId <= t.nextConnectionId
    && s.connections - {n} == t.connections - {n}
    && (n in t.connections ==> t.connections[n] < t.nextConnectionId)
  }

  lemma SameElsewhere(s: State, t: State, n: string, m: string)
    requires ChangedAt(s, t, n) && m != n
    ensures m in t.connections <==> m in s.connections
    ensures m in t.connections ==> t.connections[m] == s.connections[m]
  {
    assert m in s.connections - {n} <==> m in t.connections - {n};
    assert m in t.connections ==> (s.connections - {n})[m] == (t.connections - {n})[m];
  }

  lemma SyncKeepsLast(s: State, t: State, n: string)
    requires LastIsCurrent(s) && ChangedAt(s, t, n)
    ensures LastIsCurrent(SyncAvailability(t, n))
  {
    var u, k := SyncAvailability(t, n), |s.writes|;
    assert u.writes[k].nodeId == n;
    forall i | 0 <= i < |u.writes| && IsLast(u, i) ensures CurrentAt(u, i) {
      if i < k {
        assert u.writes[i].nodeId != n;
        forall j | i < j < k ensures s.writes[j].nodeId != s.writes[i].nodeId { assert u.writes[j] == s.writes[j]; }
        assert IsLast(s, i) && CurrentAt(s, i);
        SameElsewhere(s, t, n, s.writes[i].nodeId);
      }
    }
  }

  lemma SyncKeepsKnown(s: State, t: State, n: string)
    requires Known(s) && ChangedAt(s, t, n)
    ensures Known(SyncAvailability(t, n))
  {
    var u := SyncAvailability(t, n);
    forall m | m in u.connections ensures u.connections[m] < u.nextConnectionId && HasWrite(u, m) {
      if m == n {
        assert Of(u, |s.writes|, n);
      } else {
        SameElsewhere(s, t, n, m);
        var i: nat :| Of(s, i, m);
        assert Of(u, i, m);
      }
    }
  }

  /** Everything about nodes other than n still holds after n's connection changed. */
  lemma SyncKeepsInv(s: State, t: State, n: string)
    requires Inv(s) && ChangedAt(s, t, n)
    ensures Inv(SyncAvailability(t, n))
  {
    SyncKeepsChained(s, t, n);
    assert Remembered(t);
    SyncKeepsLast(s, t, n);
    SyncKeepsKnown(s, t, n);
  }

  lemma SyncKeepsChained(s: State, t: State, n: string)
    requires Chained(s) && Remembered(s) && t.writes == s.writes && t.pendingWrites == s.pendingWrites
    ensures Chained(SyncAvailability(t, n))
  {
    var u := SyncAvailability(t, n);
    forall i, j | 0 <= i < j < |u.writes| && u.writes[i].nodeId == u.writes[j].nodeId ensures Ordered(u, i, j) {
      if j < |s.writes| { assert Ordered(s, i, j); }
    }
  }

  // A link moves on.

  /** A started write has nothing unfinished before it. */
  lemma PredecessorsDone(s: State, w: nat)
    requires Chained(s) && w < |s.writes| && (MayStart(s, w) || !s.writes[w].phase.Waiting?)
    ensures forall i :: 0 <= i < w && s.writes[i].nodeId == s.writes[w].nodeId ==> s.writes[i].phase.Done?
  {
    forall i | 0 <= i < w && s.writes[i].nodeId == s.writes[w].nodeId ensures s.writes[i].phase.Done? {
      assert Ordered(s, i, w);
      if s.writes[w].previous.Some? {
        var p := s.writes[w].previous.value;
        assert Of(s, p, s.writes[w].nodeId);
        assert i < p ==> Ordered(s, i, p);
      }
    }
  }

  /** Only the phase of write w differs, and what the database stores. */
  predicate Moves(s: State, t: State, w: nat) {
    && w < |s.writes| == |t.writes| && t.writes == s.writes[w := s.writes[w].(phase := t.writes[w].phase)]
    && t.connections == s.connections && t.pendingWrites == s.pendingWrites && t.nextConnectionId == s.nextConnectionId
  }

  lemma MoveKeepsChained(s: State, t: State, w: nat)
    requires Chained(s) && Moves(s, t, w)
    requires (MayStart(s, w) || s.writes[w].phase.Running?) && !t.writes[w].phase.Waiting?
    ensures Chained(t)
  {
    PredecessorsDone(s, w);
    forall i, j | 0 <= i < j < |t.writes| && t.writes[i].nodeId == t.writes[j].nodeId ensures Ordered(t, i, j) {
      assert Ordered(s, i, j);
    }
    forall j | 0 <= j < |t.writes| && t.writes[j].previous.Some?
      ensures t.writes[j].previous.value < j && Of(t, t.writes[j].previous.value, t.writes[j].nodeId)
    {
      assert Of(s, s.writes[j].previous.value, s.writes[j].nodeId);
    }
  }

  lemma MoveKeepsRemembered(s: State, t: State, w: nat)
    requires Remembered(s) && Known(s) && Moves(s, t, w) && !s.writes[w].phase.Done?
    ensures Remembered(t) && Known(t)
  {
    forall n | n in t.pendingWrites ensures Of(t, t.pendingWrites[n], n) { assert Of(s, s.pendingWrites[n], n); }
    forall n | n in t.connections ensures HasWrite(t, n) {
      var i: nat :| Of(s, i, n);
      assert Of(t, i, n);
    }
  }

  lemma LastUnchanged(s: State, t: State, i: nat)
    requires |s.writes| == |t.writes| && forall k :: 0 <= k < |s.writes| ==> s.writes[k].nodeId == t.writes[k].nodeId
    ensures IsLast(s, i) <==> IsLast(t, i)
  {
  }

  lemma StartKeepsInv(s: State, w: nat)
    requires Inv(s) && MayStart(s, w)
    ensures Inv(StartWrite(s, w))
  {
    var t := StartWrite(s, w);
    MoveKeepsChained(s, t, w);
    MoveKeepsRemembered(s, t, w);
    forall i | 0 <= i < |t.writes| && IsLast(t, i) ensures CurrentAt(t, i) {
      LastUnchanged(s, t, i);
      assert CurrentAt(s, i);
    }
  }

  lemma LandKeepsLast(s: State, w: nat)
    requires Chained(s) && LastIsCurrent(s) && w < |s.writes| && s.writes[w].phase.Running?
    ensures LastIsCurrent(LandWrite(s, w))
  {
    var t, n := LandWrite(s, w), s.writes[w].nodeId;
    forall i | 0 <= i < |t.writes| && IsLast(t, i) ensures CurrentAt(t, i) {
      LastUnchanged(s, t, i);
      assert CurrentAt(s, i);
      if s.writes[i].nodeId == n && i != w {
        assert w < i && Ordered(s, w, i);
      }
    }
  }

  lemma LandKeepsInv(s: State, w: nat)
    requires Inv(s) && w < |s.writes| && s.writes[w].phase.Running?
    ensures Inv(LandWrite(s, w))
  {
    MoveKeepsChained(s, LandWrite(s, w), w);
    MoveKeepsRemembered(s, LandWrite(s, w), w);
    LandKeepsLast(s, w);
  }

  lemma ForgetKeepsInv(s: State, w: nat)
    requires Inv(s) && w < |s.writes| && s.writes[w].phase.Done?
    ensures Inv(Forget(s, w))
  {
    var t, n := Forget(s, w), s.writes[w].nodeId;
    PredecessorsDone(s, w);
    forall i | 0 <= i < |t.writes| && IsLast(t, i) ensures CurrentAt(t, i) {
      LastUnchanged(s, t, i);
      assert CurrentAt(s, i);
    }
    forall m | m in t.pendingWrites ensures Of(t, t.pendingWrites[m], m) { assert Of(s, s.pendingWrites[m], m); }
    forall m | m in t.connections ensures HasWrite(t, m) {
      var i: nat :| Of(s, i, m);
      assert Of(t, i, m);
    }
    assert Chained(t) by {
      forall i, j | 0 <= i < j < |t.writes| && t.writes[i].nodeId == t.writes[j].nodeId ensures Ordered(t, i, j) {
        assert Ordered(s, i, j);
      }
      forall j | 0 <= j < |t.writes| && t.writes[j].previous.Some?
        ensures t.writes[j].previous.value < j && Of(t, t.writes[j].previous.value, t.writes[j].nodeId)
      {
        assert Of(s, s.writes[j].previous.value, s.writes[j].nodeId);
      }
    }
  }

  lemma StepKeepsInv(s: State, event: Event)
    requires Inv(s) && Enabled(s, event)
    ensures Inv(Step(s, event))
  {
    match event
    case Connects(n) =>
      SyncKeepsInv(s,
                   s.(connections := s.connections[n := s.nextConnectionId],
                      nextConnectionId := s.nextConnectionId + 1),
                   n);
    case Disconnects(n, connId) =>
      if Step(s, event) != s { SyncKeepsInv(s, s.(connections := s.connections - {n}), n); }
    case TurnComes(w) => StartKeepsInv(s, w);
    case Lands(w) => LandKeepsInv(s, w);
    case Settles(w) => ForgetKeepsInv(s, w);
  }

  lemma {:induction false} RunsKeepInv(events: seq<Event>)
    requires IsRun(events)
    ensures Inv(After(events))
  {
    if events != [] {
      RunsKeepInv(events[..|events| - 1]);
      StepKeepsInv(After(events[..|events| - 1]), events[|events| - 1]);
    }
  }

  /** In every run at most one write of a node is under way. */
  lemma {:induction false} WritesNeverOverlap(events: seq<Event>, i: nat, j: nat)
    requires IsRun(events) && i < j < |After(events).writes|
    requires After(events).writes[i].nodeId == After(events).writes[j].nodeId
    ensures !(After(events).writes[i].phase.Running? && After(events).writes[j].phase.Running?)
  {
    RunsKeepInv(events);
    assert Ordered(After(events), i, j);
  }

  /** In every run, whenever no write of a node is pending, the database says of it what the map does. */
  lemma {:induction false} QuietNodeIsStoredRight(events: seq<Event>, n: string)
    requires IsRun(events)
    requires forall i :: 0 <= i < |After(events).writes| && After(events).writes[i].nodeId == n
               ==> After(events).writes[i].phase.Done?
    ensures var s := After(events);
      if HasWrite(s, n) then n in s.stored && s.stored[n] == (n in s.connections) else n !in s.connections
  {
    RunsKeepInv(events);
    var s := After(events);
    if HasWrite(s, n) {
      var i: nat :| Of(s, i, n);
      var last := LastOf(s, n, i);
      assert IsLast(s, last) && CurrentAt(s, last);
    }
  }

  lemma LastOf(s: State, n: string, i: nat) returns (last: nat)
    requires Of(s, i, n)
    ensures Of(s, last, n) && IsLast(s, last)
    decreases |s.writes| - i
  {
    if j: nat :| i < j < |s.writes| && s.writes[j].nodeId == n {
      last := LastOf(s, n, j);
    } else {
      last := i;
    }
  }

  lemma {:induction false} PrefixIsRun(events: seq<Event>, k: nat)
    requires IsRun(events) && k <= |events|
    ensures IsRun(events[..k])
  {
    if k < |events| {
      PrefixIsRun(events[..|events| - 1], k);
      assert events[..|events| - 1][..k] == events[..k];
    } else {
      assert events[..k] == events;
    }
  }

  /** The number was given out and is not the node's current one. */
  predicate Retired(s: State, n: string, connId: nat) {
    connId < s.nextConnectionId && (n in s.connections ==> s.connections[n] != connId)
  }

  lemma {:induction false} StepKeepsRetired(s: State, event: Event, n: string, connId: nat)
    requires Enabled(s, event) && Retired(s, n, connId)
    ensures Retired(Step(s, event), n, connId)
  {
  }

  lemma {:induction false} ReplacedIsRetired(s: State, n: string)
    requires Known(s) && n in s.connections
    ensures Retired(AddConnection(s, n), n, s.connections[n])
  {
  }

  lemma {:induction false} RetiredForGood(events: seq<Event>, k: nat, n: string, connId: nat)
    requires IsRun(events) && k <= |events| && IsRun(events[..k]) && Retired(After(events[..k]), n, connId)
    ensures Retired(After(events), n, connId)
  {
    if k < |events| {
      var before := events[..|events| - 1];
      assert before[..k] == events[..k];
      RetiredForGood(before, k, n, connId);
      StepKeepsRetired(After(before), events[|events| - 1], n, connId);
    } else {
      assert events[..k] == events;
    }
  }

  /** In every run, once a connection of a node has been replaced, its number never matches again: at any later
      moment a removal that names it changes nothing. */
  lemma {:induction false} ReplacementSurvives(events: seq<Event>, k: nat, n: string, older: nat)
    requires IsRun(events) && k < |events| && events[k] == Connects(n) && IsRun(events[..k])
    requires n in After(events[..k]).connections && older == After(events[..k]).connections[n]
    ensures n in After(events).connections ==> After(events).connections[n] != older
    ensures RemoveConnection(After(events), n, Some(older)) == After(events)
  {
    RunsKeepInv(events[..k]);
    PrefixIsRun(events, k + 1);
    assert events[..k + 1][..k] == events[..k];
    ReplacedIsRetired(After(events[..k]), n);
    RetiredForGood(events, k + 1, n, older);
  }

  // Which nodes are connected, told from the events alone.

  /** The number the next connection gets. */
  function NextNumber(events: seq<Event>): nat {
    if events == [] then 1
    else NextNumber(events[..|events| - 1]) + if events[|events| - 1].Connects? then 1 else 0
  }

  /** A later connection of the node, or a removal that names none or this one. */
  predicate Ends(event: Event, n: string, connId: nat) {
    event == Connects(n) || event == Disconnects(n, None) || event == Disconnects(n, Some(connId))
  }

  /** Event k connects the node, and nothing has ended that connection since. */
  predicate IsCurrent(events: seq<Event>, k: nat, n: string) {
    && k < |events| && events[k] == Connects(n)
    && forall j :: k < j < |events| ==> !Ends(events[j], n, NextNumber(events[..k]))
  }

  lemma {:induction false} NumbersAreGivenInOrder(events: seq<Event>)
    requires IsRun(events)
    ensures After(events).nextConnectionId == NextNumber(events)
  {
    if events != [] {
      NumbersAreGivenInOrder(events[..|events| - 1]);
    }
  }

  lemma {:induction false} CurrentBefore(events: seq<Event>, before: seq<Event>, k: nat, n: string)
    requires events != [] && before == events[..|events| - 1] && k < |before|
    ensures IsCurrent(events, k, n)
      <==> IsCurrent(before, k, n) && !Ends(events[|before|], n, NextNumber(before[..k]))
  {
    assert events[..k] == before[..k];
    assert forall j :: 0 <= j < |before| ==> events[j] == before[j];
  }

  lemma {:induction false} StepOfNode(s: State, event: Event, n: string)
    requires Enabled(s, event)
    ensures var t := Step(s, event);
      if event == Connects(n) then n in t.connections && t.connections[n] == s.nextConnectionId
      else if n in s.connections && !Ends(event, n, s.connections[n]) then
        n in t.connections && t.connections[n] == s.connections[n]
      else n !in t.connections
  {
    match event
    case Connects(m) => assert Step(s, event).connections == s.connections[m := s.nextConnectionId];
    case Disconnects(m, connId) =>
      assert Step(s, event).connections
        == if m in s.connections && (connId.None? || connId.value == s.connections[m]) then s.connections - {m}
           else s.connections;
      assert m != n ==> !Ends(event, n, if n in s.connections then s.connections[n] else 0);
    case _ => assert Step(s, event).connections == s.connections;
  }

  /** In every run a node is connected exactly while some connection of it is current, under that one's number. */
  lemma {:induction false} ConnectedIffCurrent(events: seq<Event>, n: string) returns (last: nat)
    requires IsRun(events)
    ensures n in After(events).connections ==> IsCurrent(events, last, n)
    ensures forall k: nat :: IsCurrent(events, k, n)
              ==> n in After(events).connections && After(events).connections[n] == NextNumber(events[..k])
  {
    last := 0;
    if events != [] {
      var before, event := events[..|events| - 1], events[|events| - 1];
      last := ConnectedIffCurrent(before, n);
      NumbersAreGivenInOrder(before);
      StepOfNode(After(before), event, n);
      forall k: nat | k < |before|
        ensures IsCurrent(events, k, n)
          <==> IsCurrent(before, k, n) && !Ends(event, n, NextNumber(before[..k]))
        ensures events[..k] == before[..k]
      {
        CurrentBefore(events, before, k, n);
      }
      assert events[..|before|] == before;
      forall k: nat | IsCurrent(events, k, n)
        ensures n in After(events).connections && After(events).connections[n] == NextNumber(events[..k])
      {
        assert k < |before| ==> IsCurrent(before, k, n);
      }
      if event == Connects(n) {
        last := |before|;
      }
    }
  }

  // Every write gets its turn.

  lemma {:induction false} OneMore(events: seq<Event>, event: Event)
    requires IsRun(events) && Enabled(After(events), event)
    ensures IsRun(events + [event]) && After(events + [event]) == Step(After(events), event)
  {
    assert (events + [event])[..|events|] == events;
  }

  predicate DoneUpTo(s: State, k: nat) {
    k <= |s.writes| && forall i :: 0 <= i < k ==> s.writes[i].phase.Done?
  }

  predicate OnlyWrites(events: seq<Event>) { forall e :: e in events ==> e.TurnComes? || e.Lands? }

  /** The first write that is not over can start if it waits. */
  lemma {:induction false} FirstStarts(events: seq<Event>, k: nat)
    requires IsRun(events) && DoneUpTo(After(events), k) && k < |After(events).writes|
    requires After(events).writes[k].phase.Waiting?
    ensures IsRun(events + [TurnComes(k)])
    ensures After(events + [TurnComes(k)]) == StartWrite(After(events), k)
    ensures DoneUpTo(StartWrite(After(events), k), k)
  {
    RunsKeepInv(events);
    assert MayStart(After(events), k);
    OneMore(events, TurnComes(k));
  }

  /** And end once it runs. */
  lemma {:induction false} FirstLands(events: seq<Event>, k: nat)
    requires IsRun(events) && DoneUpTo(After(events), k) && k < |After(events).writes|
    requires After(events).writes[k].phase.Running?
    ensures IsRun(events + [Lands(k)])
    ensures After(events + [Lands(k)]) == LandWrite(After(events), k)
    ensures DoneUpTo(LandWrite(After(events), k), k + 1)
  {
    OneMore(events, Lands(k));
  }

  lemma {:induction false} FinishWrite(events: seq<Event>, k: nat) returns (more: seq<Event>)
    requires IsRun(events) && DoneUpTo(After(events), k) && k < |After(events).writes|
    ensures IsRun(events + more) && OnlyWrites(more) && DoneUpTo(After(events + more), k + 1)
    ensures After(events + more).connections == After(events).connections
    ensures |After(events + more).writes| == |After(events).writes|
  {
    match After(events).writes[k].phase {
      case Waiting =>
        FirstStarts(events, k);
        FirstLands(events + [TurnComes(k)], k);
        more := [TurnComes(k), Lands(k)];
        assert events + more == events + [TurnComes(k)] + [Lands(k)];
      case Running(_) =>
        FirstLands(events, k);
        more := [Lands(k)];
      case Done =>
        more := [];
        assert events + [] == events;
    }
  }

  lemma {:induction false} FinishFrom(events: seq<Event>, k: nat) returns (more: seq<Event>)
    requires IsRun(events) && DoneUpTo(After(events), k)
    ensures IsRun(events + more) && OnlyWrites(more)
    ensures After(events + more).connections == After(events).connections
    ensures DoneUpTo(After(events + more), |After(events + more).writes|)
    decreases |After(events).writes| - k
  {
    if k == |After(events).writes| {
      more := [];
      assert events + [] == events;
    } else {
      var first := FinishWrite(events, k);
      var rest := FinishFrom(events + first, k + 1);
      assert events + (first + rest) == events + first + rest;
      more := first + rest;
    }
  }

  /** From every run the writes already asked for can all take their turn, and then the database says of every node
      written what the map does. */
  lemma {:induction false} WritesCanFinish(events: seq<Event>, n: string) returns (more: seq<Event>)
    requires IsRun(events)
    ensures IsRun(events + more) && OnlyWrites(more)
    ensures var s := After(events + more);
      && s.connections == After(events).connections && DoneUpTo(s, |s.writes|)
      && (HasWrite(s, n) ==> n in s.stored && s.stored[n] == (n in s.connections))
  {
    more := FinishFrom(events, 0);
    QuietNodeIsStoredRight(events + more, n);
  }

  /** Once a write has settled, its node's chain is forgotten exactly if nothing was chained behind it. */
  lemma {:induction false} SettlingForgets(events: seq<Event>, w: nat)
    requires IsRun(events) && Enabled(After(events), Settles(w))
    ensures var s, t := After(events), Step(After(events), Settles(w)); var n := s.writes[w].nodeId;
      && (IsLast(s, w) ==> n !in t.pendingWrites)
      && (!IsLast(s, w) ==> t.pendingWrites == s.pendingWrites)
      && t.pendingWrites - {n} == s.pendingWrites - {n}
  {
    RunsKeepInv(events);
    var s := After(events);
    var n := s.writes[w].nodeId;
    if n in s.pendingWrites {
      assert Of(s, s.pendingWrites[n], n);
      if !IsLast(s, w) {
        var j :| w < j < |s.writes| && s.writes[j].nodeId == n;
      }
    }
  }
}
