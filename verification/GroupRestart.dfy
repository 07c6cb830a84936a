/** Restarting a group whose member failed; any number of failure reports may come between a read and its update. */
module GroupRestart {
  import opened Options

  const GROUP_RESTART_BUDGET: nat := 3

  datatype Group = Group(id: string, rank: nat, generation: nat)

  /** Installation rows; a deployment served on one node alone has no group. */
  type Rows = map<string, Option<Group>>

  function GenerationAfter(group: Group, failedGeneration: nat): Option<nat> {
    if failedGeneration != group.generation || group.generation > GROUP_RESTART_BUDGET then None
    else Some(group.generation + 1)
  }

  /** An update on its way: it only touches rows still on the generation that was read. */
  datatype Update = Update(groupId: string, from: nat, next: nat)

  function MoveOn(group: Option<Group>, u: Update): Option<Group> {
    if group.Some? && group.value.id == u.groupId && group.value.generation == u.from then
      Some(group.value.(generation := u.next))
    else group
  }

  function Apply(rows: Rows, u: Update): Rows { map id | id in rows :: MoveOn(rows[id], u) }

  predicate Touches(rows: Rows, u: Update) {
    exists id :: id in rows && rows[id].Some? && rows[id].value.id == u.groupId && rows[id].value.generation == u.from
  }

  /** What a failure report reads: whether to restart, and from which generation. */
  function PlanRestart(rows: Rows, installationId: string, failedStage: bool,
                       failedGeneration: Option<nat>): Option<Update> {
    if !failedStage || failedGeneration.None? then None
    else if installationId !in rows || rows[installationId].None? then None
    else
      var group := rows[installationId].value;
      match GenerationAfter(group, failedGeneration.value)
      case None => None
      case Some(next) => Some(Update(group.id, group.generation, next))
  }

  /** Besides rows and updates under way: the generation each group has reached, and every bump made. */
  datatype System = System(rows: Rows, pending: multiset<Update>, reached: map<string, nat>, bumps: seq<(string, nat)>)

  const EMPTY := System(map[], multiset{}, map[], [])

  datatype Event =
    | GroupCreated(groupId: string, members: seq<string>)
    | InstallationCreated(installationId: string)
    | InstallationDeleted(installationId: string)
    | FailureRead(installationId: string, failedStage: bool, failedGeneration: Option<nat>)
    | UpdateLands(update: Update)
    | UpdateFails(update: Update)

  predicate Distinct(members: seq<string>) { forall i, j :: 0 <= i < j < |members| ==> members[i] != members[j] }

  predicate Enabled(s: System, event: Event) {
    match event
    case GroupCreated(id, members) => id !in s.reached && Distinct(members) && forall m :: m in members ==> m !in s.rows
    case InstallationCreated(id) => id !in s.rows
    case InstallationDeleted(_) => true
    case FailureRead(_, _, _) => true
    case UpdateLands(u) => u in s.pending
    case UpdateFails(u) => u in s.pending
  }

  function AddMembers(rows: Rows, groupId: string, members: seq<string>): Rows {
    if members == [] then rows
    else
      var n := |members| - 1;
      AddMembers(rows, groupId, members[..n])[members[n] := Some(Group(groupId, n, 1))]
  }

  function Step(s: System, event: Event): System {
    match event
    case GroupCreated(id, members) => s.(rows := AddMembers(s.rows, id, members), reached := s.reached[id := 1])
    case InstallationCreated(id) => s.(rows := s.rows[id := None])
    case InstallationDeleted(id) => s.(rows := s.rows - {id})
    case FailureRead(id, failed, generation) =>
      (match PlanRestart(s.rows, id, failed, generation)
       case None => s
       case Some(u) => s.(pending := s.pending + multiset{u}))
    case UpdateLands(u) =>
      var landed := s.(rows := Apply(s.rows, u), pending := s.pending - multiset{u});
      if Touches(s.rows, u) then landed.(reached := s.reached[u.groupId := u.next],
                                         bumps := s.bumps + [(u.groupId, u.from)])
      else landed
    case UpdateFails(u) => s.(pending := s.pending - multiset{u})
  }

  predicate IsRun(events: seq<Event>) {
    events == [] || (IsRun(events[..|events| - 1]) && Enabled(After(events[..|events| - 1]), events[|events| - 1]))
  }

  function After(events: seq<Event>): System {
    if events == [] then EMPTY else Step(After(events[..|events| - 1]), events[|events| - 1])
  }

  /** The generations a group was bumped from, in order. */
  function BumpsOf(bumps: seq<(string, nat)>, groupId: string): seq<nat> {
    if bumps == [] then []
    else
      var n := |bumps| - 1;
      BumpsOf(bumps[..n], groupId) + (if bumps[n].0 == groupId then [bumps[n].1] else [])
  }

  function OneUpTo(n: nat): (r: seq<nat>)
    ensures |r| == n
  {
    if n == 0 then [] else OneUpTo(n - 1) + [n]
  }

  predicate RowsAgree(s: System) {
    forall id :: id in s.rows && s.rows[id].Some? ==>
      s.rows[id].value.id in s.reached && s.rows[id].value.generation == s.reached[s.rows[id].value.id]
  }

  predicate PendingAreNext(s: System) {
    forall u :: u in s.pending ==> u.groupId in s.reached && u.next == u.from + 1 && 1 <= u.from <= GROUP_RESTART_BUDGET
  }

  ghost predicate InOrder(bumps: seq<(string, nat)>, reached: map<string, nat>) {
    forall id :: BumpsOf(bumps, id) == BumpsUpTo(reached, id)
  }

  function BumpsUpTo(reached: map<string, nat>, id: string): seq<nat> {
    if id in reached && reached[id] > 0 then OneUpTo(reached[id] - 1) else []
  }

  ghost predicate BumpsAreInOrder(s: System) {
    && (forall id :: id in s.reached ==> 1 <= s.reached[id] <= GROUP_RESTART_BUDGET + 1)
    && InOrder(s.bumps, s.reached)
  }

  ghost predicate Inv(s: System) { RowsAgree(s) && PendingAreNext(s) && BumpsAreInOrder(s) }

  lemma {:induction false} AddedMember(rows: Rows, groupId: string, members: seq<string>, id: string)
    ensures id in AddMembers(rows, groupId, members) <==> id in rows || id in members
    ensures id in AddMembers(rows, groupId, members) ==>
      if id in members then exists rank :: AddMembers(rows, groupId, members)[id] == Some(Group(groupId, rank, 1))
      else AddMembers(rows, groupId, members)[id] == rows[id]
  {
    if members != [] {
      var n := |members| - 1;
      AddedMember(rows, groupId, members[..n], id);
      assert members == members[..n] + [members[n]];
    }
  }

  lemma GroupCreatedKeepsInv(s: System, groupId: string, members: seq<string>)
    requires Inv(s) && Enabled(s, GroupCreated(groupId, members))
    ensures Inv(Step(s, GroupCreated(groupId, members)))
  {
    GroupCreatedKeepsRowsAgree(s, groupId, members);
    assert OneUpTo(0) == [];
  }

  lemma GroupCreatedKeepsRowsAgree(s: System, groupId: string, members: seq<string>)
    requires Inv(s) && Enabled(s, GroupCreated(groupId, members))
    ensures RowsAgree(Step(s, GroupCreated(groupId, members)))
  {
    var t := Step(s, GroupCreated(groupId, members));
    forall id | id in t.rows && t.rows[id].Some?
      ensures t.rows[id].value.id in t.reached && t.rows[id].value.generation == t.reached[t.rows[id].value.id]
    {
      AddedMember(s.rows, groupId, members, id);
    }
  }

  lemma {:induction false} BumpKeepsOrder(bumps: seq<(string, nat)>, reached: map<string, nat>, groupId: string,
                                          from: nat)
    requires InOrder(bumps, reached) && groupId in reached && reached[groupId] == from >= 1
    ensures InOrder(bumps + [(groupId, from)], reached[groupId := from + 1])
  {
    forall id ensures BumpsOf(bumps + [(groupId, from)], id) == BumpsUpTo(reached[groupId := from + 1], id) {
      assert BumpsOf(bumps, id) == BumpsUpTo(reached, id);
    }
  }

  lemma {:induction false} LandingKeepsBumpsInOrder(s: System, u: Update)
    requires RowsAgree(s) && PendingAreNext(s) && BumpsAreInOrder(s) && u in s.pending
    ensures BumpsAreInOrder(Step(s, UpdateLands(u)))
  {
    var t := Step(s, UpdateLands(u));
    if Touches(s.rows, u) {
      BumpKeepsOrder(s.bumps, s.reached, u.groupId, u.from);
      assert t.bumps == s.bumps + [(u.groupId, u.from)] && t.reached == s.reached[u.groupId := u.from + 1];
    } else {
      assert t.bumps == s.bumps && t.reached == s.reached;
    }
  }

  lemma LandingKeepsInv(s: System, u: Update)
    requires Inv(s) && u in s.pending
    ensures Inv(Step(s, UpdateLands(u)))
  {
    LandingKeepsBumpsInOrder(s, u);
  }

  lemma ReadKeepsInv(s: System, id: string, failed: bool, generation: Option<nat>)
    requires Inv(s)
    ensures Inv(Step(s, FailureRead(id, failed, generation)))
  {
  }

  lemma RowsKeepInv(s: System, event: Event)
    requires Inv(s) && (event.InstallationCreated? || event.InstallationDeleted? || event.UpdateFails?)
    ensures Inv(Step(s, event))
  {
    assert Step(s, event).bumps == s.bumps && Step(s, event).reached == s.reached;
  }

  lemma StepKeepsInv(s: System, event: Event)
    requires Inv(s) && Enabled(s, event)
    ensures Inv(Step(s, event))
  {
    match event
    case GroupCreated(id, members) => GroupCreatedKeepsInv(s, id, members);
    case FailureRead(id, failed, generation) => ReadKeepsInv(s, id, failed, generation);
    case UpdateLands(u) => LandingKeepsInv(s, u);
    case _ => RowsKeepInv(s, event);
  }

  lemma {:induction false} RunsKeepInv(events: seq<Event>)
    requires IsRun(events)
    ensures Inv(After(events))
  {
    if events == [] {
    } else {
      RunsKeepInv(events[..|events| - 1]);
      StepKeepsInv(After(events[..|events| - 1]), events[|events| - 1]);
    }
  }

  /** However failure reports and updates interleave, all rows of a group carry one generation, between
      1 and one more than the budget. */
  lemma {:induction false} MembersShareGeneration(events: seq<Event>, a: string, b: string)
    requires IsRun(events) && a in After(events).rows && b in After(events).rows
    requires After(events).rows[a].Some? && After(events).rows[b].Some?
    requires After(events).rows[a].value.id == After(events).rows[b].value.id
    ensures After(events).rows[a].value.generation == After(events).rows[b].value.generation
    ensures 1 <= After(events).rows[a].value.generation <= 4
  {
    RunsKeepInv(events);
  }

  /** A group's bumps are 1, 2, 3, ... up to the generation before its current one: each failed
      generation moves it on once, by one, and no other update has any effect. */
  lemma {:induction false} EachGenerationBumpedOnce(events: seq<Event>, groupId: string)
    requires IsRun(events)
    ensures BumpsOf(After(events).bumps, groupId) == OneUpTo(|BumpsOf(After(events).bumps, groupId)|)
    ensures groupId in After(events).reached
        ==> After(events).reached[groupId] == |BumpsOf(After(events).bumps, groupId)| + 1
    ensures |BumpsOf(After(events).bumps, groupId)| <= 3
  {
    RunsKeepInv(events);
  }

  // Why a group is restarted.

  predicate IsAt(rows: Rows, id: string, groupId: string, generation: nat) {
    id in rows && rows[id].Some? && rows[id].value.id == groupId && rows[id].value.generation == generation
  }

  /** Event k reads the failure of a member on the generation its group then had. */
  predicate IsFailure(events: seq<Event>, k: nat, groupId: string, generation: nat) {
    && k < |events| && events[k].FailureRead?
    && events[k] == FailureRead(events[k].installationId, true, Some(generation))
    && IsAt(After(events[..k]).rows, events[k].installationId, groupId, generation)
  }

  ghost predicate HasFailed(events: seq<Event>, groupId: string, generation: nat) {
    exists k: nat :: IsFailure(events, k, groupId, generation)
  }

  /** Every update under way, and every bump made, moves a group from a generation that failed to the next. */
  ghost predicate Caused(events: seq<Event>, s: System) {
    && (forall u :: u in s.pending ==> u.next == u.from + 1 && HasFailed(events, u.groupId, u.from))
    && (forall i :: 0 <= i < |s.bumps| ==> HasFailed(events, s.bumps[i].0, s.bumps[i].1))
  }

  lemma {:induction false} FailureStays(before: seq<Event>, event: Event, groupId: string, generation: nat)
    requires HasFailed(before, groupId, generation)
    ensures HasFailed(before + [event], groupId, generation)
  {
    var k: nat :| IsFailure(before, k, groupId, generation);
    assert (before + [event])[..k] == before[..k];
    assert IsFailure(before + [event], k, groupId, generation);
  }

  /** What reading a report plans: the next generation exactly if it tells of a failure of the current one and
      the budget is not used up. */
  lemma {:induction false} ReadPlans(s: System, id: string, failed: bool, generation: Option<nat>)
    ensures var t := Step(s, FailureRead(id, failed, generation));
      if failed && generation.Some? && generation.value <= 3
          && id in s.rows && s.rows[id].Some? && s.rows[id].value.generation == generation.value then
        t == s.(pending := s.pending
                           + multiset{Update(s.rows[id].value.id, generation.value, generation.value + 1)})
      else t == s
  {
  }

  lemma {:induction false} ReadIsCaused(before: seq<Event>, id: string, failed: bool, generation: Option<nat>)
    requires Caused(before, After(before))
    ensures Caused(before + [FailureRead(id, failed, generation)],
                   Step(After(before), FailureRead(id, failed, generation)))
  {
    var s, event := After(before), FailureRead(id, failed, generation);
    var t, events := Step(s, event), before + [event];
    ReadPlans(s, id, failed, generation);
    forall u | u in t.pending ensures u.next == u.from + 1 && HasFailed(events, u.groupId, u.from) {
      if u in s.pending {
        FailureStays(before, event, u.groupId, u.from);
      } else {
        assert events[..|before|] == before;
        assert IsFailure(events, |before|, u.groupId, u.from);
      }
    }
    forall i | 0 <= i < |t.bumps| ensures HasFailed(events, t.bumps[i].0, t.bumps[i].1) {
      FailureStays(before, event, s.bumps[i].0, s.bumps[i].1);
    }
  }

  lemma {:induction false} OtherStepIsCaused(before: seq<Event>, event: Event)
    requires Caused(before, After(before)) && Enabled(After(before), event) && !event.FailureRead?
    ensures Caused(before + [event], Step(After(before), event))
  {
    var s, t := After(before), Step(After(before), event);
    forall u | u in t.pending ensures u.next == u.from + 1 && HasFailed(before + [event], u.groupId, u.from) {
      assert u in s.pending;
      FailureStays(before, event, u.groupId, u.from);
    }
    forall i | 0 <= i < |t.bumps| ensures HasFailed(before + [event], t.bumps[i].0, t.bumps[i].1) {
      if i < |s.bumps| {
        assert t.bumps[i] == s.bumps[i];
      } else {
        assert t.bumps[i] == (event.update.groupId, event.update.from);
      }
      FailureStays(before, event, t.bumps[i].0, t.bumps[i].1);
    }
  }

  /** In every run a group is moved on only from a generation on which a member's failure was read while the
      group was on it, so a late report never restarts a healthy attempt. */
  lemma {:induction false} EveryBumpHasAFailure(events: seq<Event>)
    requires IsRun(events)
    ensures Caused(events, After(events))
  {
    if events != [] {
      var before, event := events[..|events| - 1], events[|events| - 1];
      EveryBumpHasAFailure(before);
      assert events == before + [event];
      if event.FailureRead? {
        ReadIsCaused(before, event.installationId, event.failedStage, event.failedGeneration);
      } else {
        OtherStepIsCaused(before, event);
      }
    }
  }

  lemma {:induction false} LandingMovesMember(rows: Rows, u: Update, m: string)
    requires IsAt(rows, m, u.groupId, u.from)
    ensures IsAt(Apply(rows, u), m, u.groupId, u.next)
  {
  }

  lemma {:induction false} FailureMovesGroup(s: System, id: string, groupId: string, n: nat)
    requires IsAt(s.rows, id, groupId, n) && n <= 3
    ensures var t := Step(s, FailureRead(id, true, Some(n))); var u := Update(groupId, n, n + 1);
      && u in t.pending
      && forall m :: IsAt(t.rows, m, groupId, n) ==> IsAt(Step(t, UpdateLands(u)).rows, m, groupId, n + 1)
  {
    ReadPlans(s, id, true, Some(n));
    var u := Update(groupId, n, n + 1);
    forall m | IsAt(s.rows, m, groupId, n) ensures IsAt(Apply(s.rows, u), m, groupId, n + 1) {
      LandingMovesMember(s.rows, u, m);
    }
  }

  /** And a failure of the current generation restarts the group, up to three times: once the update planned for
      it lands, every member of the group is past that generation. */
  lemma {:induction false} FailureRestartsGroup(events: seq<Event>, read: seq<Event>, id: string, groupId: string,
                                                n: nat)
    requires IsRun(events) && IsAt(After(events).rows, id, groupId, n) && n <= 3
    requires read == events + [FailureRead(id, true, Some(n))]
    ensures var u := Update(groupId, n, n + 1);
      && IsRun(read) && u in After(read).pending
      && forall m :: IsAt(After(read).rows, m, groupId, n)
           ==> IsAt(Step(After(read), UpdateLands(u)).rows, m, groupId, n + 1)
  {
    assert read[..|read| - 1] == events && read[|read| - 1] == FailureRead(id, true, Some(n));
    FailureMovesGroup(After(events), id, groupId, n);
  }

  lemma {:induction false} LandingMovesWholeGroup(s: System, u: Update, id: string)
    requires Inv(s) && u in s.pending && id in s.rows && s.rows[id].Some? && s.rows[id].value.id == u.groupId
    ensures Apply(s.rows, u)[id]
        == Some(s.rows[id].value.(generation := if Touches(s.rows, u) then u.from + 1 else s.rows[id].value.generation))
  {
  }

  /** A landing update moves every member on or none. */
  lemma {:induction false} UpdateMovesWholeGroup(events: seq<Event>, u: Update, id: string)
    requires IsRun(events) && u in After(events).pending && id in After(events).rows
    requires After(events).rows[id].Some? && After(events).rows[id].value.id == u.groupId
    ensures var s := After(events);
      Step(s, UpdateLands(u)).rows[id]
        == Some(s.rows[id].value.(generation := if Touches(s.rows, u) then u.from + 1 else s.rows[id].value.generation))
  {
    RunsKeepInv(events);
    LandingMovesWholeGroup(After(events), u, id);
  }
}
