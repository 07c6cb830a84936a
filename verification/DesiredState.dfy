/** What the tether tells a node about its installations, group members' progress included. */
module DesiredState {
  import opened Listing
  import opened Options

  datatype Stage = Preparing | Admitted | Running | Failed

  datatype Address = Address(subnet: string, address: string)

  datatype Group = Group(id: string, rank: nat, generation: nat, addresses: seq<Address>)

  datatype Row = Row(id: string, nodeId: string, specifier: string, group: Option<Group>)

  /** An installation of some group with the stage its node last reported, and for which attempt. */
  datatype Member = Member(row: Row, stage: Option<Stage>, stageGeneration: Option<nat>)

  datatype MemberView = MemberView(rank: nat, stage: Option<Stage>)

  datatype DesiredGroup = DesiredGroup(group: Group, masterAddress: Option<string>, members: seq<MemberView>)

  datatype Desired = Desired(installationId: string, specifier: string, group: Option<DesiredGroup>)

  predicate InGroup(m: Member, groupId: string) { m.row.group.Some? && m.row.group.value.id == groupId }

  function MembersOf(all: seq<Member>, groupId: string): (r: seq<Member>)
    ensures forall m :: m in r <==> m in all && InGroup(m, groupId)
    ensures forall m :: m in r ==> m.row.group.Some? && m.row.group.value.id == groupId
    ensures forall m :: m in all && m.row.group.Some? && m.row.group.value.id == groupId ==> m in r
  {
    if all == [] then []
    else if InGroup(all[0], groupId) then [all[0]] + MembersOf(all[1..], groupId)
    else MembersOf(all[1..], groupId)
  }

  predicate IsLeader(m: Member) { m.row.group.Some? && m.row.group.value.rank == 0 }

  predicate IsFirstLeader(members: seq<Member>, i: nat) {
    i < |members| && IsLeader(members[i]) && forall j :: 0 <= j < i ==> !IsLeader(members[j])
  }

  function FindLeader(members: seq<Member>): (leader: Option<Member>)
    ensures leader.Some? ==> exists i: nat :: IsFirstLeader(members, i) && leader.value == members[i]
    ensures leader.Some? ==> leader.value.row.group.Some? && leader.value.row.group.value.rank == 0
    ensures leader.None? ==> forall m :: m in members && m.row.group.Some? ==> m.row.group.value.rank != 0
    ensures leader.None? ==> forall m :: m in members ==> !IsLeader(m)
  {
    if members == [] then None
    else if IsLeader(members[0]) then
      assert IsFirstLeader(members, 0);
      Some(members[0])
    else
      var leader := FindLeader(members[1..]);
      assert forall i: nat :: IsFirstLeader(members[1..], i) ==> IsFirstLeader(members, i + 1);
      leader
  }

  /** The address on a subnet, or else the first. */
  function OnSubnet(addresses: seq<Address>, subnet: string): (address: Option<string>)
    ensures IsAddressFor(addresses, subnet, address)
  {
    var found := FindSubnet(addresses, subnet);
    if found.Some? then Some(found.value.address) else if addresses != [] then Some(addresses[0].address) else None
  }

  predicate IsFirstOn(addresses: seq<Address>, subnet: string, i: nat) {
    i < |addresses| && addresses[i].subnet == subnet && forall j :: 0 <= j < i ==> addresses[j].subnet != subnet
  }

  /** The first address on the subnet; without any the first of all, and None only if there is no address. */
  ghost predicate IsAddressFor(addresses: seq<Address>, subnet: string, address: Option<string>) {
    if exists i: nat :: IsFirstOn(addresses, subnet, i) then
      exists i: nat :: IsFirstOn(addresses, subnet, i) && address == Some(addresses[i].address)
    else if addresses != [] then address == Some(addresses[0].address)
    else address == None
  }

  function FindSubnet(addresses: seq<Address>, subnet: string): (found: Option<Address>)
    ensures found.Some? ==> exists i: nat :: IsFirstOn(addresses, subnet, i) && found.value == addresses[i]
    ensures found.None? ==> forall i: nat :: !IsFirstOn(addresses, subnet, i)
  {
    if addresses == [] then None
    else if addresses[0].subnet == subnet then
      assert IsFirstOn(addresses, subnet, 0);
      Some(addresses[0])
    else
      var found := FindSubnet(addresses[1..], subnet);
      assert forall i: nat :: IsFirstOn(addresses[1..], subnet, i) ==> IsFirstOn(addresses, subnet, i + 1);
      assert forall i: nat :: IsFirstOn(addresses, subnet, i) ==> i > 0 && IsFirstOn(addresses[1..], subnet, i - 1);
      found
  }

  function ViewOf(m: Member, generation: nat): MemberView
    requires m.row.group.Some?
  {
    MemberView(m.row.group.value.rank, if m.stageGeneration == Some(generation) then m.stage else None)
  }

  /** Sorting by rank, ties in the order met. */
  function InsertByRank(v: MemberView, sorted: seq<MemberView>): seq<MemberView> {
    if sorted == [] || v.rank <= sorted[0].rank then [v] + sorted else [sorted[0]] + InsertByRank(v, sorted[1..])
  }

  function Views(members: seq<Member>, generation: nat): seq<MemberView>
    requires forall m :: m in members ==> m.row.group.Some?
  {
    if members == [] then [] else InsertByRank(ViewOf(members[0], generation), Views(members[1..], generation))
  }

  /** None leaves the installation out: its group has no rank 0 to join. */
  function GroupOf(row: Row, all: seq<Member>): Option<Option<DesiredGroup>> {
    if row.group.None? then Some(None)
    else
      var group := row.group.value;
      var members := MembersOf(all, group.id);
      var leader := FindLeader(members);
      if leader.None? then None
      else
        var subnet := if group.addresses != [] then group.addresses[0].subnet else "";
        var addresses := OnSubnet(leader.value.row.group.value.addresses, subnet);
        Some(Some(DesiredGroup(group, addresses, Views(members, group.generation))))
  }

  function ToDesired(row: Row, all: seq<Member>): Option<Desired> {
    match GroupOf(row, all)
    case None => None
    case Some(group) => Some(Desired(row.id, row.specifier, group))
  }

  function TellOne(row: Row, all: seq<Member>): seq<Desired> {
    match ToDesired(row, all)
    case None => []
    case Some(d) => [d]
  }

  /** The installations of the rows, in their order. */
  function ToDesiredState(rows: seq<Row>, all: seq<Member>): seq<Desired> {
    if rows == [] then [] else TellOne(rows[0], all) + ToDesiredState(rows[1..], all)
  }

  // What a node is meant to be told.

  /** The member's rank, with the stage it reported for that very generation. */
  predicate Shows(m: Member, generation: nat, v: MemberView) {
    && m.row.group.Some? && v.rank == m.row.group.value.rank
    && (m.stageGeneration == Some(generation) ==> v.stage == m.stage)
    && (m.stageGeneration != Some(generation) ==> v.stage.None?)
  }

  /** Each view is that of the group's member at its place. */
  predicate Placed(all: seq<Member>, groupId: string, generation: nat, views: seq<MemberView>, places: seq<nat>) {
    && |places| == |views|
    && forall k :: 0 <= k < |places|
         ==> places[k] < |all| && InGroup(all[places[k]], groupId) && Shows(all[places[k]], generation, views[k])
  }

  predicate Precedes(v: MemberView, i: nat, w: MemberView, j: nat) { v.rank < w.rank || (v.rank == w.rank && i < j) }

  /** By rank, and otherwise in the order met. */
  predicate InRankOrder(views: seq<MemberView>, places: seq<nat>) {
    |places| == |views| && forall j, k :: 0 <= j < k < |places| ==> Precedes(views[j], places[j], views[k], places[k])
  }

  predicate Covers(all: seq<Member>, groupId: string, places: seq<nat>) {
    forall i :: 0 <= i < |all| && InGroup(all[i], groupId) ==> i in places
  }

  /** The views are those of all members of the group, each once. */
  predicate Lists(all: seq<Member>, groupId: string, generation: nat, views: seq<MemberView>, places: seq<nat>) {
    && Placed(all, groupId, generation, views, places) && InRankOrder(views, places) && Covers(all, groupId, places)
  }

  /** One more member in front that is not of the group. */
  lemma {:induction false} ListsWithoutFirst(all: seq<Member>, groupId: string, generation: nat, views: seq<MemberView>,
                                             places: seq<nat>)
    requires all != [] && Lists(all[1..], groupId, generation, views, places) && !InGroup(all[0], groupId)
    ensures Lists(all, groupId, generation, views, Moved(places, 1))
  {
    forall i | 0 <= i < |all| && InGroup(all[i], groupId) ensures i in Moved(places, 1) {
      MovedHas(places, 1, i - 1);
    }
  }

  function RankOf(views: seq<MemberView>, rank: nat): (p: nat)
    ensures p <= |views| && (forall k :: 0 <= k < p ==> views[k].rank < rank) && (p < |views| ==> rank <= views[p].rank)
  {
    if views == [] || rank <= views[0].rank then 0 else 1 + RankOf(views[1..], rank)
  }

  lemma {:induction false} InsertAtRank(v: MemberView, views: seq<MemberView>)
    ensures var p := RankOf(views, v.rank); InsertByRank(v, views) == Inserted(views, p, v)
  {
    if views != [] && v.rank > views[0].rank {
      InsertAtRank(v, views[1..]);
      var p := RankOf(views[1..], v.rank);
      assert views[..p + 1] == [views[0]] + views[1..][..p] && views[p + 1..] == views[1..][p..];
    }
  }

  function Inserted<T>(s: seq<T>, p: nat, x: T): seq<T>
    requires p <= |s|
  {
    s[..p] + [x] + s[p..]
  }

  lemma {:induction false} PlacedWithFirst(all: seq<Member>, groupId: string, generation: nat, views: seq<MemberView>,
                                           places: seq<nat>, v: MemberView, p: nat)
    requires all != [] && Placed(all[1..], groupId, generation, views, places) && p <= |views|
    requires InGroup(all[0], groupId) && Shows(all[0], generation, v)
    ensures Placed(all, groupId, generation, Inserted(views, p, v), Inserted(Moved(places, 1), p, 0))
  {
  }

  lemma InsertedAt<T>(s: seq<T>, p: nat, x: T, k: nat)
    requires p <= |s| && k <= |s|
    ensures |Inserted(s, p, x)| == |s| + 1
    ensures Inserted(s, p, x)[k] == if k < p then s[k] else if k == p then x else s[k - 1]
  {
  }

  lemma {:induction false} OrderedWithFirst(views: seq<MemberView>, places: seq<nat>, v: MemberView)
    requires InRankOrder(views, places)
    ensures var p := RankOf(views, v.rank); InRankOrder(Inserted(views, p, v), Inserted(Moved(places, 1), p, 0))
  {
    var p, shifted := RankOf(views, v.rank), Moved(places, 1);
    var more, at := Inserted(views, p, v), Inserted(shifted, p, 0);
    forall j, k | 0 <= j < k < |at| ensures Precedes(more[j], at[j], more[k], at[k]) {
      InsertedAt(views, p, v, j);
      InsertedAt(views, p, v, k);
      InsertedAt(shifted, p, 0, j);
      InsertedAt(shifted, p, 0, k);
      if j == p && p < k - 1 {
        assert Precedes(views[p], places[p], views[k - 1], places[k - 1]);
      } else if j != p && k != p {
        var a, b := if j < p then j else j - 1, if k < p then k else k - 1;
        assert Precedes(views[a], places[a], views[b], places[b]);
      }
    }
  }

  lemma {:induction false} CoversWithFirst(all: seq<Member>, groupId: string, places: seq<nat>, p: nat)
    requires all != [] && Covers(all[1..], groupId, places) && p <= |places|
    ensures Covers(all, groupId, Inserted(Moved(places, 1), p, 0))
  {
    var shifted, at := Moved(places, 1), Inserted(Moved(places, 1), p, 0);
    assert at[p] == 0;
    forall i | 0 < i < |all| && InGroup(all[i], groupId) ensures i in at {
      MovedHas(places, 1, i - 1);
      var k :| 0 <= k < |shifted| && shifted[k] == i;
      assert at[if k < p then k else k + 1] == i;
    }
  }

  /** The views of a group are those of all its members, each once, by rank. */
  lemma {:induction false} ViewsAreAllMembersByRank(all: seq<Member>, groupId: string, generation: nat)
    returns (places: seq<nat>)
    ensures Lists(all, groupId, generation, Views(MembersOf(all, groupId), generation), places)
  {
    places := [];
    if all != [] {
      var views := Views(MembersOf(all[1..], groupId), generation);
      places := ViewsAreAllMembersByRank(all[1..], groupId, generation);
      if InGroup(all[0], groupId) {
        var v := ViewOf(all[0], generation);
        var p := RankOf(views, v.rank);
        InsertAtRank(v, views);
        PlacedWithFirst(all, groupId, generation, views, places, v, p);
        OrderedWithFirst(views, places, v);
        CoversWithFirst(all, groupId, places, p);
        assert MembersOf(all, groupId)[1..] == MembersOf(all[1..], groupId);
        places := Inserted(Moved(places, 1), p, 0);
      } else {
        ListsWithoutFirst(all, groupId, generation, views, places);
        places := Moved(places, 1);
      }
    }
  }

  /** A member of the group with the shown rank and stage, reported for the group's current attempt. */
  predicate Reported(m: Member, group: Group, v: MemberView) {
    && InGroup(m, group.id) && m.row.group.value.rank == v.rank
    && m.stage == v.stage && m.stageGeneration == Some(group.generation)
  }

  /** A stage shows only where a member of the group reported it for the very attempt the row is on. */
  lemma {:induction false} NoStageOfAnEarlierAttempt(row: Row, all: seq<Member>, v: MemberView)
    requires ToDesired(row, all).Some? && ToDesired(row, all).value.group.Some?
    requires v in ToDesired(row, all).value.group.value.members && v.stage.Some?
    ensures exists m :: m in all && Reported(m, row.group.value, v)
  {
    var group := row.group.value;
    var places := ViewsAreAllMembersByRank(all, group.id, group.generation);
    var views := Views(MembersOf(all, group.id), group.generation);
    var k :| 0 <= k < |views| && views[k] == v;
    assert all[places[k]] in all && Reported(all[places[k]], group, v);
  }

  /** The other direction: whatever a member reported for the current attempt is shown, and every member of the
      group takes exactly one place, by rank. */
  lemma {:induction false} EveryCurrentStageShows(row: Row, all: seq<Member>, i: nat)
    returns (places: seq<nat>, k: nat)
    requires ToDesired(row, all).Some? && row.group.Some? && i < |all| && InGroup(all[i], row.group.value.id)
    ensures ToDesired(row, all).value.group.Some?
    ensures var group, views := row.group.value, ToDesired(row, all).value.group.value.members;
      && Lists(all, group.id, group.generation, views, places)
      && k < |views| && places[k] == i && Shows(all[i], group.generation, views[k])
  {
    places := ViewsAreAllMembersByRank(all, row.group.value.id, row.group.value.generation);
    k :| k < |places| && places[k] == i;
  }

  predicate IsLeaderAt(all: seq<Member>, groupId: string, i: nat) {
    && i < |all| && InGroup(all[i], groupId) && IsLeader(all[i])
    && forall j :: 0 <= j < i ==> !(InGroup(all[j], groupId) && IsLeader(all[j]))
  }

  lemma {:induction false} LeaderOfTail(all: seq<Member>, groupId: string)
    requires all != [] && !(InGroup(all[0], groupId) && IsLeader(all[0]))
    ensures FindLeader(MembersOf(all, groupId)) == FindLeader(MembersOf(all[1..], groupId))
  {
    if InGroup(all[0], groupId) {
      assert MembersOf(all, groupId)[1..] == MembersOf(all[1..], groupId);
    }
  }

  predicate Leaderless(all: seq<Member>, groupId: string) {
    forall i :: 0 <= i < |all| ==> !(InGroup(all[i], groupId) && IsLeader(all[i]))
  }

  lemma {:induction false} LeaderBehindFirst(all: seq<Member>, groupId: string, i: nat)
    requires all != [] && !(InGroup(all[0], groupId) && IsLeader(all[0]))
    ensures IsLeaderAt(all[1..], groupId, i) ==> IsLeaderAt(all, groupId, i + 1)
    ensures Leaderless(all[1..], groupId) ==> Leaderless(all, groupId)
  {
    assert forall j :: 0 < j < |all| ==> all[j] == all[1..][j - 1];
  }

  predicate IsLeaderOf(leader: Option<Member>, all: seq<Member>, groupId: string, i: nat) {
    if leader.Some? then IsLeaderAt(all, groupId, i) && leader.value == all[i] else Leaderless(all, groupId)
  }

  lemma {:induction false} FirstLeads(all: seq<Member>, groupId: string)
    requires all != [] && InGroup(all[0], groupId) && IsLeader(all[0])
    ensures IsLeaderOf(FindLeader(MembersOf(all, groupId)), all, groupId, 0)
  {
    assert MembersOf(all, groupId)[0] == all[0];
  }

  lemma {:induction false} LeaderMovesBehind(leader: Option<Member>, all: seq<Member>, groupId: string, i: nat)
    requires all != [] && !(InGroup(all[0], groupId) && IsLeader(all[0]))
    requires IsLeaderOf(leader, all[1..], groupId, i)
    ensures IsLeaderOf(leader, all, groupId, i + 1)
  {
    LeaderBehindFirst(all, groupId, i);
  }

  lemma {:induction false} LeaderIsFirst(all: seq<Member>, groupId: string) returns (i: nat)
    ensures IsLeaderOf(FindLeader(MembersOf(all, groupId)), all, groupId, i)
  {
    i := 0;
    if all != [] {
      if InGroup(all[0], groupId) && IsLeader(all[0]) {
        FirstLeads(all, groupId);
      } else {
        i := LeaderIsFirst(all[1..], groupId);
        LeaderOfTail(all, groupId);
        LeaderMovesBehind(FindLeader(MembersOf(all, groupId)), all, groupId, i);
        i := i + 1;
      }
    }
  }

  /** An installation is left out exactly when its group has lost its rank 0. */
  lemma {:induction false} LeftOutIffLeaderless(row: Row, all: seq<Member>)
    ensures ToDesired(row, all).None? <==>
      row.group.Some? && forall m :: m in all && InGroup(m, row.group.value.id) ==> !IsLeader(m)
  {
    if row.group.Some? {
      var i := LeaderIsFirst(all, row.group.value.id);
      if ToDesired(row, all).Some? {
        assert all[i] in all;
      }
    }
  }

  /** What is told of an installation is its own, and a group joins its rank 0 on the subnet the member itself
      uses first. */
  lemma {:induction false} ToldOfItself(row: Row, all: seq<Member>) returns (leader: nat)
    requires ToDesired(row, all).Some?
    ensures var d := ToDesired(row, all).value;
      && d.installationId == row.id && d.specifier == row.specifier && (d.group.None? <==> row.group.None?)
      && (d.group.Some? ==>
            && d.group.value.group == row.group.value && IsLeaderAt(all, row.group.value.id, leader)
            && IsAddressFor(all[leader].row.group.value.addresses,
                            if row.group.value.addresses == [] then "" else row.group.value.addresses[0].subnet,
                            d.group.value.masterAddress))
  {
    leader := 0;
    if row.group.Some? {
      leader := LeaderIsFirst(all, row.group.value.id);
    }
  }

  predicate IsTold(all: seq<Member>, row: Row, d: Desired) { ToDesired(row, all) == Some(d) }

  lemma {:induction false} OneIsTold(row: Row, all: seq<Member>, isTold: (Row, Desired) -> bool) returns (at: seq<nat>)
    requires forall r, d :: isTold(r, d) <==> IsTold(all, r, d)
    ensures Keeps([row], TellOne(row, all), at, isTold)
  {
    assert forall d :: isTold(row, d) <==> ToDesired(row, all) == Some(d);
    at := KeepsOne(row, TellOne(row, all), isTold);
  }

  lemma {:induction false} RowsAreTold(rows: seq<Row>, all: seq<Member>, isTold: (Row, Desired) -> bool)
    returns (at: seq<nat>)
    requires forall r, d :: isTold(r, d) <==> IsTold(all, r, d)
    ensures Keeps(rows, ToDesiredState(rows, all), at, isTold)
  {
    at := [];
    if rows != [] {
      var one := OneIsTold(rows[0], all, isTold);
      var rest := RowsAreTold(rows[1..], all, isTold);
      KeepsConcat([rows[0]], TellOne(rows[0], all), one, rows[1..], ToDesiredState(rows[1..], all), rest, isTold);
      assert [rows[0]] + rows[1..] == rows;
      at := one + Moved(rest, 1);
    }
  }

  /** The rows are told of in order: every row but those whose group has no rank 0. */
  lemma {:induction false} RowsAreToldInOrder(rows: seq<Row>, all: seq<Member>) returns (at: seq<nat>)
    ensures Keeps(rows, ToDesiredState(rows, all), at, (row, d) => IsTold(all, row, d))
  {
    at := RowsAreTold(rows, all, (row, d) => IsTold(all, row, d));
  }
}
