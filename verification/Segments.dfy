/** Ports that see each other's MAC addresses share a segment: a union-find over them finds the components. */
module Segments {
  datatype Path = Path(mac: string)

  datatype Port = Port(paths: seq<Path>, neighbours: seq<string>)

  // What the segments are meant to be.

  predicate HasMac(port: Port, mac: string) { exists k :: 0 <= k < |port.paths| && port.paths[k].mac == mac }

  /** A MAC stands for the last port that lists it. */
  predicate Owns(ports: seq<Port>, j: nat, mac: string) {
    && j < |ports| && HasMac(ports[j], mac)
    && forall later :: j < later < |ports| ==> !HasMac(ports[later], mac)
  }

  ghost predicate Sees(ports: seq<Port>, i: nat, j: nat) {
    i < |ports| && exists mac :: mac in ports[i].neighbours && Owns(ports, j, mac)
  }

  ghost predicate Linked(ports: seq<Port>, i: nat, j: nat) { Sees(ports, i, j) || Sees(ports, j, i) }

  ghost predicate IsWalk(ports: seq<Port>, walk: seq<nat>) {
    forall k :: 0 <= k < |walk| - 1 ==> Linked(ports, walk[k], walk[k + 1])
  }

  ghost predicate Connects(ports: seq<Port>, walk: seq<nat>, i: nat, j: nat) {
    walk != [] && walk[0] == i && walk[|walk| - 1] == j && IsWalk(ports, walk)
  }

  /** Some chain of ports, each seeing the next or seen by it, leads from i to j. */
  ghost predicate Connected(ports: seq<Port>, i: nat, j: nat) {
    exists walk :: Connects(ports, walk, i, j)
  }

  lemma ConnectedReflexive(ports: seq<Port>, i: nat)
    ensures Connected(ports, i, i)
  {
    assert Connects(ports, [i], i, i);
  }

  lemma ConnectedSymmetric(ports: seq<Port>, i: nat, j: nat)
    requires Connected(ports, i, j)
    ensures Connected(ports, j, i)
  {
    var walk :| Connects(ports, walk, i, j);
    var n := |walk|;
    var back := seq(n, k requires 0 <= k < n => walk[n - 1 - k]);
    forall k | 0 <= k < n - 1 ensures Linked(ports, back[k], back[k + 1]) {
      assert Linked(ports, walk[n - 2 - k], walk[n - 2 - k + 1]);
    }
    assert Connects(ports, back, j, i);
  }

  lemma ConnectedTransitive(ports: seq<Port>, i: nat, j: nat, k: nat)
    requires Connected(ports, i, j) && Connected(ports, j, k)
    ensures Connected(ports, i, k)
  {
    var first :| Connects(ports, first, i, j);
    var second :| Connects(ports, second, j, k);
    var n := |first|;
    var walk := first + second[1..];
    forall m | 0 <= m < |walk| - 1 ensures Linked(ports, walk[m], walk[m + 1]) {
      if m < n - 1 {
        assert Linked(ports, first[m], first[m + 1]);
      } else {
        assert walk[m] == second[m - (n - 1)] && walk[m + 1] == second[m - (n - 1) + 1];
      }
    }
    assert Connects(ports, walk, i, k);
  }

  lemma LinkedConnects(ports: seq<Port>, i: nat, j: nat)
    requires Linked(ports, i, j)
    ensures Connected(ports, i, j)
  {
    assert Connects(ports, [i, j], i, j);
  }

  // The forest behind the parent array: a root for every port, and a depth that falls on the way to it.

  datatype Forest = Forest(root: seq<nat>, depth: seq<nat>)

  predicate NodeOk(f: Forest, parent: seq<nat>, i: nat)
    requires |f.root| == |f.depth| == |parent| && i < |parent|
  {
    && parent[i] < |parent| && f.root[i] < |parent|
    && parent[f.root[i]] == f.root[i] && f.root[f.root[i]] == f.root[i]
    && f.root[parent[i]] == f.root[i]
    && (if parent[i] == i then f.root[i] == i else f.depth[parent[i]] < f.depth[i])
  }

  ghost predicate Describes(f: Forest, parent: seq<nat>) {
    && |f.root| == |f.depth| == |parent|
    && forall i :: 0 <= i < |parent| ==> NodeOk(f, parent, i)
  }

  function Singletons(n: nat): Forest {
    Forest(seq(n, i => i), seq(n, i => 0))
  }

  /** The forest once the root a has been hung below the root b. */
  function Union(f: Forest, a: nat, b: nat): Forest
    requires a < |f.root| == |f.depth| && b < |f.depth|
  {
    if a == b then f
    else Forest(
      seq(|f.root|, i requires 0 <= i < |f.root| => if f.root[i] == a then b else f.root[i]),
      seq(|f.root|, i requires 0 <= i < |f.root| => if f.root[i] == a then f.depth[i] + f.depth[b] + 1 else f.depth[i]))
  }

  lemma UnionDescribes(f: Forest, parent: seq<nat>, a: nat, b: nat)
    requires Describes(f, parent) && a < |parent| && b < |parent| && f.root[a] == a && f.root[b] == b
    ensures Describes(Union(f, a, b), parent[a := b])
  {
    if a == b {
      assert NodeOk(f, parent, a) && parent[a := b] == parent;
    } else {
      var g, updated := Union(f, a, b), parent[a := b];
      forall i | 0 <= i < |parent| ensures NodeOk(g, updated, i) {
        assert NodeOk(f, parent, i) && NodeOk(f, parent, a) && NodeOk(f, parent, b);
      }
    }
  }

  /** Walks up the parent array. */
  method RootOf(segmentOf: array<nat>, start: nat, ghost f: Forest) returns (index: nat)
    requires Describes(f, segmentOf[..]) && start < segmentOf.Length
    ensures index == f.root[start]
  {
    index := start;
    assert NodeOk(f, segmentOf[..], start);
    while segmentOf[index] != index
      invariant index < segmentOf.Length && f.root[index] == f.root[start]
      decreases f.depth[index]
    {
      assert NodeOk(f, segmentOf[..], index);
      index := segmentOf[index];
    }
    assert NodeOk(f, segmentOf[..], index);
  }

  // Building the answer.

  /** The next port takes over its MACs and leaves the others with their owner. */
  lemma {:induction false} OwnsOneMore(ports: seq<Port>, index: nat, mac: string, owner: nat)
    requires index < |ports|
    ensures HasMac(ports[index], mac) ==> Owns(ports[..index + 1], index, mac)
    ensures !HasMac(ports[index], mac) && Owns(ports[..index], owner, mac) ==> Owns(ports[..index + 1], owner, mac)
  {
  }

  /** The MACs of the paths stand for the port, all others for what they stood for before. */
  ghost predicate Overwrites(before: map<string, nat>, after: map<string, nat>, paths: seq<Path>, index: nat) {
    && (forall mac :: mac in after <==> mac in before || Path(mac) in paths)
    && (forall mac :: mac in after ==> after[mac] == if Path(mac) in paths then index else before[mac])
  }

  lemma {:induction false} IndexedOneMore(ports: seq<Port>, index: nat, before: map<string, nat>,
                                          after: map<string, nat>)
    requires index < |ports| && MacsIndexed(ports[..index], before)
    requires Overwrites(before, after, ports[index].paths, index)
    ensures MacsIndexed(ports[..index + 1], after)
  {
    forall mac | mac in after ensures Owns(ports[..index + 1], after[mac], mac) {
      assert Path(mac) in ports[index].paths <==> HasMac(ports[index], mac);
      OwnsOneMore(ports, index, mac, if mac in before then before[mac] else 0);
    }
    forall mac, j | 0 <= j < index + 1 && HasMac(ports[j], mac) ensures mac in after {
      if j < index {
        assert HasMac(ports[..index][j], mac);
      } else {
        assert Path(mac) in ports[index].paths;
      }
    }
  }

  method IndexMacs(ports: seq<Port>) returns (portByMac: map<string, nat>)
    ensures MacsIndexed(ports, portByMac)
  {
    portByMac := map[];
    for index := 0 to |ports|
      invariant MacsIndexed(ports[..index], portByMac)
    {
      ghost var before := portByMac;
      var paths := ports[index].paths;
      for k := 0 to |paths|
        invariant Overwrites(before, portByMac, paths[..k], index)
      {
        assert paths[..k + 1] == paths[..k] + [Path(paths[k].mac)];
        portByMac := portByMac[paths[k].mac := index];
      }
      assert paths[..|paths|] == paths;
      IndexedOneMore(ports, index, before, portByMac);
    }
    assert ports[..|ports|] == ports;
  }

  /** The roots found so far say no more than the walks between ports do. */
  ghost predicate OnlyConnected(ports: seq<Port>, f: Forest) {
    |f.root| == |ports| && forall i, j :: 0 <= i < |ports| && 0 <= j < |ports| && f.root[i] == f.root[j]
                             ==> Connected(ports, i, j)
  }

  lemma UnionStaysConnected(ports: seq<Port>, f: Forest, i: nat, other: nat)
    requires |f.depth| == |f.root| && OnlyConnected(ports, f)
    requires i < |ports| && other < |ports| && f.root[i] < |ports| && f.root[other] < |ports| && Linked(ports, i, other)
    ensures OnlyConnected(ports, Union(f, f.root[other], f.root[i]))
  {
    var g := Union(f, f.root[other], f.root[i]);
    LinkedConnects(ports, i, other);
    ConnectedSymmetric(ports, i, other);
    forall x, y | 0 <= x < |ports| && 0 <= y < |ports| && g.root[x] == g.root[y] ensures Connected(ports, x, y) {
      if f.root[x] == f.root[y] {
      } else if f.root[x] == f.root[other] {
        ConnectedThrough(ports, f, x, other, i, y);
      } else {
        ConnectedThrough(ports, f, x, i, other, y);
      }
    }
  }

  lemma ConnectedThrough(ports: seq<Port>, f: Forest, x: nat, u: nat, v: nat, y: nat)
    requires OnlyConnected(ports, f) && x < |ports| && y < |ports| && u < |ports| && v < |ports|
    requires f.root[x] == f.root[u] && Connected(ports, u, v) && f.root[v] == f.root[y]
    ensures Connected(ports, x, y)
  {
    assert Connected(ports, x, u) && Connected(ports, v, y);
    ConnectedTransitive(ports, x, u, v);
    ConnectedTransitive(ports, x, v, y);
  }

  /** Every neighbour processed so far shares its root. */
  ghost predicate Joined(f: Forest, portByMac: map<string, nat>, i: nat, neighbours: seq<string>) {
    i < |f.root| && forall mac :: mac in neighbours && mac in portByMac ==>
      portByMac[mac] < |f.root| && f.root[portByMac[mac]] == f.root[i]
  }

  lemma UnionKeepsJoined(f: Forest, a: nat, b: nat, portByMac: map<string, nat>, i: nat, neighbours: seq<string>)
    requires |f.depth| == |f.root| && a < |f.root| && b < |f.root|
    requires Joined(f, portByMac, i, neighbours)
    ensures Joined(Union(f, a, b), portByMac, i, neighbours)
  {
  }

  ghost predicate JoinedUpTo(ports: seq<Port>, portByMac: map<string, nat>, f: Forest, n: nat) {
    n <= |ports| && forall i :: 0 <= i < n ==> Joined(f, portByMac, i, ports[i].neighbours)
  }

  ghost predicate MacsIndexed(ports: seq<Port>, portByMac: map<string, nat>) {
    && (forall mac :: mac in portByMac ==> Owns(ports, portByMac[mac], mac))
    && (forall mac, j :: 0 <= j < |ports| && HasMac(ports[j], mac) ==> mac in portByMac)
  }

  /** One step of the loop over a port's neighbours. */
  method JoinPorts(ports: seq<Port>, index: nat, other: nat, segmentOf: array<nat>,
                   ghost f: Forest) returns (ghost g: Forest)
    requires segmentOf.Length == |ports| && index < |ports| && other < |ports| && Sees(ports, index, other)
    requires Describes(f, segmentOf[..]) && OnlyConnected(ports, f)
    modifies segmentOf
    ensures Describes(g, segmentOf[..]) && OnlyConnected(ports, g)
    ensures f.root[other] < |ports| && f.root[index] < |ports|
    ensures g == Union(f, f.root[other], f.root[index]) && g.root[other] == g.root[index]
  {
    var a := RootOf(segmentOf, other, f);
    var b := RootOf(segmentOf, index, f);
    assert NodeOk(f, segmentOf[..], other) && NodeOk(f, segmentOf[..], index);
    UnionDescribes(f, segmentOf[..], a, b);
    UnionStaysConnected(ports, f, index, other);
    ghost var updated := segmentOf[..][a := b];
    segmentOf[a] := b;
    assert segmentOf[..] == updated;
    g := Union(f, a, b);
  }

  lemma {:induction false} UnionKeepsAllJoined(ports: seq<Port>, f: Forest, a: nat, b: nat, portByMac: map<string, nat>,
                                               n: nat)
    requires |f.depth| == |f.root| && a < |f.root| && b < |f.root| && JoinedUpTo(ports, portByMac, f, n)
    ensures JoinedUpTo(ports, portByMac, Union(f, a, b), n)
  {
    forall i | 0 <= i < n ensures Joined(Union(f, a, b), portByMac, i, ports[i].neighbours) {
      UnionKeepsJoined(f, a, b, portByMac, i, ports[i].neighbours);
    }
  }

  lemma {:induction false} JoinedPush(f: Forest, portByMac: map<string, nat>, i: nat, neighbours: seq<string>, k: nat)
    requires k < |neighbours| && Joined(f, portByMac, i, neighbours[..k])
    requires var mac := neighbours[k];
      mac in portByMac ==> portByMac[mac] < |f.root| && f.root[portByMac[mac]] == f.root[i]
    ensures Joined(f, portByMac, i, neighbours[..k + 1])
  {
    assert neighbours[..k + 1] == neighbours[..k] + [neighbours[k]];
  }

  lemma {:induction false} SingletonsConnected(ports: seq<Port>)
    ensures OnlyConnected(ports, Singletons(|ports|))
  {
    forall i | 0 <= i < |ports| ensures Connected(ports, i, i) {
      ConnectedReflexive(ports, i);
    }
  }

  method JoinNeighbours(ports: seq<Port>, portByMac: map<string, nat>, segmentOf: array<nat>) returns (ghost f: Forest)
    requires segmentOf.Length == |ports| && forall i :: 0 <= i < |ports| ==> segmentOf[i] == i
    requires MacsIndexed(ports, portByMac)
    modifies segmentOf
    ensures Describes(f, segmentOf[..]) && OnlyConnected(ports, f)
    ensures JoinedUpTo(ports, portByMac, f, |ports|)
  {
    f := Singletons(|ports|);
    SingletonsConnected(ports);
    for index := 0 to |ports|
      invariant Describes(f, segmentOf[..]) && OnlyConnected(ports, f)
      invariant JoinedUpTo(ports, portByMac, f, index)
    {
      var neighbours := ports[index].neighbours;
      for k := 0 to |neighbours|
        invariant Describes(f, segmentOf[..]) && OnlyConnected(ports, f)
        invariant JoinedUpTo(ports, portByMac, f, index)
        invariant Joined(f, portByMac, index, neighbours[..k])
      {
        var mac := neighbours[k];
        if mac in portByMac {
          var other := portByMac[mac];
          assert Owns(ports, other, mac) && Sees(ports, index, other);
          ghost var before := f;
          f := JoinPorts(ports, index, other, segmentOf, f);
          ghost var a, b := before.root[other], before.root[index];
          UnionKeepsAllJoined(ports, before, a, b, portByMac, index);
          UnionKeepsJoined(before, a, b, portByMac, index, neighbours[..k]);
        }
        JoinedPush(f, portByMac, index, neighbours, k);
      }
      assert neighbours[..|neighbours|] == neighbours;
    }
  }

  lemma SeenShareRoot(ports: seq<Port>, portByMac: map<string, nat>, f: Forest, i: nat, j: nat)
    requires |f.root| == |ports| && Sees(ports, i, j)
    requires MacsIndexed(ports, portByMac) && JoinedUpTo(ports, portByMac, f, |ports|)
    ensures j < |ports| && f.root[i] == f.root[j]
  {
    var mac :| mac in ports[i].neighbours && Owns(ports, j, mac);
    assert mac in portByMac && Owns(ports, portByMac[mac], mac);
    assert portByMac[mac] == j;
    assert Joined(f, portByMac, i, ports[i].neighbours);
  }

  lemma {:induction false} WalkSharesRoot(ports: seq<Port>, portByMac: map<string, nat>, f: Forest, walk: seq<nat>)
    requires |f.root| == |ports| && walk != [] && walk[0] < |ports| && IsWalk(ports, walk)
    requires MacsIndexed(ports, portByMac) && JoinedUpTo(ports, portByMac, f, |ports|)
    ensures walk[|walk| - 1] < |ports| && f.root[walk[|walk| - 1]] == f.root[walk[0]]
    decreases |walk|
  {
    if |walk| > 1 {
      var n := |walk|;
      var front := walk[..n - 1];
      assert IsWalk(ports, front) by {
        forall k | 0 <= k < |front| - 1 ensures Linked(ports, front[k], front[k + 1]) {
          assert Linked(ports, walk[k], walk[k + 1]);
        }
      }
      WalkSharesRoot(ports, portByMac, f, front);
      assert Linked(ports, walk[n - 2], walk[n - 2 + 1]);
      if Sees(ports, walk[n - 2], walk[n - 1]) {
        SeenShareRoot(ports, portByMac, f, walk[n - 2], walk[n - 1]);
      } else {
        SeenShareRoot(ports, portByMac, f, walk[n - 1], walk[n - 2]);
      }
    }
  }

  /** Roots decide connectedness once all neighbours are joined. */
  ghost predicate RootsAreComponents(ports: seq<Port>, root: seq<nat>) {
    |root| == |ports|
    && forall i, j :: 0 <= i < |ports| && 0 <= j < |ports| ==> (root[i] == root[j] <==> Connected(ports, i, j))
  }

  lemma JoinedRootsAreComponents(ports: seq<Port>, portByMac: map<string, nat>, f: Forest)
    requires OnlyConnected(ports, f)
    requires MacsIndexed(ports, portByMac) && JoinedUpTo(ports, portByMac, f, |ports|)
    ensures RootsAreComponents(ports, f.root)
  {
    forall i, j | 0 <= i < |ports| && 0 <= j < |ports| && Connected(ports, i, j) ensures f.root[i] == f.root[j] {
      var walk :| Connects(ports, walk, i, j);
      WalkSharesRoot(ports, portByMac, f, walk);
    }
  }

  // Grouping by root.

  type Groups = seq<seq<nat>>

  predicate Ascending(group: seq<nat>) { forall k, m :: 0 <= k < m < |group| ==> group[k] < group[m] }

  predicate InGroup(groups: Groups, g: nat, i: nat) { g < |groups| && i in groups[g] }

  ghost predicate InSome(groups: Groups, i: nat) { exists g: nat :: InGroup(groups, g, i) }

  ghost predicate SameGroup(groups: Groups, i: nat, j: nat) {
    exists g: nat :: InGroup(groups, g, i) && InGroup(groups, g, j)
  }

  /** Groups are non-empty and ascending, and ordered by their first position. */
  predicate Ordered(groups: Groups) {
    && (forall g :: 0 <= g < |groups| ==> groups[g] != [] && Ascending(groups[g]))
    && (forall g, h :: 0 <= g < h < |groups| ==> groups[g] != [] && groups[h] != [] && groups[g][0] < groups[h][0])
  }

  /** Every position below n is in exactly one group, and nothing else is. */
  ghost predicate Partitions(groups: Groups, n: nat) {
    && (forall g: nat, i: nat :: InGroup(groups, g, i) ==> i < n)
    && (forall i: nat :: i < n ==> InSome(groups, i))
    && (forall g: nat, h: nat, i: nat :: InGroup(groups, g, i) && InGroup(groups, h, i) ==> g == h)
  }

  /** Halfway through the grouping: slot says which group a root has, and nothing is lost. */
  ghost predicate Grouping(groups: Groups, slot: map<nat, nat>, root: seq<nat>, n: nat) {
    && n <= |root|
    && (forall g: nat, i: nat :: InGroup(groups, g, i) ==> i < n && root[i] in slot && slot[root[i]] == g)
    && (forall i: nat :: i < n ==> root[i] in slot && InGroup(groups, slot[root[i]], i))
    && (forall r, q :: r in slot && q in slot && slot[r] == slot[q] ==> r == q)
    && (forall r :: r in slot ==> slot[r] < |groups|)
  }

  lemma ExtendGroup(groups: Groups, slot: map<nat, nat>, root: seq<nat>, n: nat, s: nat)
    requires Grouping(groups, slot, root, n) && n < |root| && root[n] in slot && s == slot[root[n]]
    ensures Grouping(groups[s := groups[s] + [n]], slot, root, n + 1)
  {
    var more := groups[s := groups[s] + [n]];
    assert more[s][|groups[s]|] == n;
    forall g: nat, i: nat | InGroup(more, g, i) ensures i < n + 1 && root[i] in slot && slot[root[i]] == g {
      if i != n || g != s { assert InGroup(groups, g, i); }
    }
    forall i: nat | i < n + 1 ensures root[i] in slot && InGroup(more, slot[root[i]], i) {
      if i < n {
        assert InGroup(groups, slot[root[i]], i);
        var k :| 0 <= k < |groups[slot[root[i]]]| && groups[slot[root[i]]][k] == i;
        assert more[slot[root[i]]][k] == i;
      }
    }
  }

  lemma ExtendKeepsOrder(groups: Groups, s: nat, n: nat)
    requires Ordered(groups) && s < |groups| && forall i :: i in groups[s] ==> i < n
    ensures Ordered(groups[s := groups[s] + [n]])
  {
    var extended := groups[s] + [n];
    assert extended[0] == groups[s][0];
    forall k, m | 0 <= k < m < |extended| ensures extended[k] < extended[m] {
      assert extended[k] == groups[s][k] && groups[s][k] in groups[s];
    }
  }

  lemma OpenGroup(groups: Groups, slot: map<nat, nat>, root: seq<nat>, n: nat)
    requires Grouping(groups, slot, root, n) && n < |root| && root[n] !in slot
    ensures Grouping(groups + [[n]], slot[root[n] := |groups|], root, n + 1)
  {
    var more, slots := groups + [[n]], slot[root[n] := |groups|];
    forall g: nat, i: nat | InGroup(more, g, i) ensures i < n + 1 && root[i] in slots && slots[root[i]] == g {
      if g < |groups| { assert InGroup(groups, g, i); }
    }
    forall i: nat | i < n + 1 ensures root[i] in slots && InGroup(more, slots[root[i]], i) {
      if i < n {
        assert InGroup(groups, slot[root[i]], i);
        assert more[slot[root[i]]] == groups[slot[root[i]]];
      } else {
        assert more[|groups|][0] == n;
      }
    }
  }

  lemma OpenKeepsOrder(groups: Groups, n: nat)
    requires Ordered(groups) && forall g: nat, i: nat :: InGroup(groups, g, i) ==> i < n
    ensures Ordered(groups + [[n]])
  {
    var more := groups + [[n]];
    forall g, h | 0 <= g < h < |more| ensures more[g] != [] && more[h] != [] && more[g][0] < more[h][0] {
      assert InGroup(groups, g, groups[g][0]);
    }
  }

  /** The groups in the order their roots were first met, as the source's map keeps them. */
  method GroupByRoot(segmentOf: array<nat>, ghost f: Forest) returns (groups: Groups)
    requires Describes(f, segmentOf[..])
    ensures Ordered(groups) && Partitions(groups, segmentOf.Length)
    ensures forall i: nat, j: nat :: i < |f.root| && j < |f.root|
              ==> (SameGroup(groups, i, j) <==> f.root[i] == f.root[j])
  {
    groups := [];
    var slot: map<nat, nat> := map[];
    for index := 0 to segmentOf.Length
      invariant Grouping(groups, slot, f.root, index) && Ordered(groups)
    {
      var r := RootOf(segmentOf, index, f);
      if r in slot {
        ghost var s := slot[r];
        forall i | i in groups[s] ensures i < index { assert InGroup(groups, s, i); }
        ExtendKeepsOrder(groups, s, index);
        ExtendGroup(groups, slot, f.root, index, s);
        groups := groups[slot[r] := groups[slot[r]] + [index]];
      } else {
        OpenKeepsOrder(groups, index);
        OpenGroup(groups, slot, f.root, index);
        slot := slot[r := |groups|];
        groups := groups + [[index]];
      }
    }
    forall i: nat | i < |f.root| ensures InSome(groups, i) {
      assert InGroup(groups, slot[f.root[i]], i);
    }
    forall i: nat, j: nat | i < |f.root| && j < |f.root| && f.root[i] == f.root[j] ensures SameGroup(groups, i, j) {
      assert InGroup(groups, slot[f.root[i]], i) && InGroup(groups, slot[f.root[j]], j);
    }
  }

  /** The source's segments, each port named by its position. */
  method Segments(ports: seq<Port>) returns (groups: Groups)
    ensures Ordered(groups) && Partitions(groups, |ports|)
    ensures forall i: nat, j: nat :: i < |ports| && j < |ports|
              ==> (SameGroup(groups, i, j) <==> Connected(ports, i, j))
  {
    var portByMac := IndexMacs(ports);
    var segmentOf := new nat[|ports|](i => i);
    ghost var f := JoinNeighbours(ports, portByMac, segmentOf);
    JoinedRootsAreComponents(ports, portByMac, f);
    groups := GroupByRoot(segmentOf, f);
  }
}
