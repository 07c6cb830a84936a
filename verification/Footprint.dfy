/** The memory a deployment takes on every rank and node, part by part. */
module Footprint {
  import opened Options
  import opened TensorParallel

  datatype Kind = Weights | KvCache | Engine | Speculative | HostWeights | Communicators | EngineProcess | ImageInput

  datatype Memory = Gpu | Host

  function MemoryOf(kind: Kind): Memory {
    if kind in {Weights, KvCache, Engine, Speculative} then Gpu else Host
  }

  datatype Part = Part(kind: Kind, gb: real)

  datatype Parted = Parted(gpuGb: real, hostGb: real, parts: seq<Part>)

  /** All memory of one sort. */
  function Total(parts: seq<Part>, memory: Memory): real {
    if parts == [] then 0.0
    else
      var last := parts[|parts| - 1];
      Total(parts[..|parts| - 1], memory) + if MemoryOf(last.kind) == memory then last.gb else 0.0
  }

  /** All memory of one kind of part. */
  function OfKind(parts: seq<Part>, kind: Kind): real {
    if parts == [] then 0.0
    else OfKind(parts[..|parts| - 1], kind) + if parts[|parts| - 1].kind == kind then parts[|parts| - 1].gb else 0.0
  }

  /** A part that is not positive is not counted. */
  function Counted(gb: real): real { if gb > 0.0 then gb else 0.0 }

  predicate AllPositive(parts: seq<Part>) { forall i :: 0 <= i < |parts| ==> parts[i].gb > 0.0 }

  /** The parts are merged by kind without loss, and the totals are theirs. */
  ghost predicate IsParted(parts: seq<Part>, r: Parted) {
    && AllPositive(r.parts)
    && (forall i, j :: 0 <= i < j < |r.parts| ==> r.parts[i].kind != r.parts[j].kind)
    && (forall kind :: OfKind(r.parts, kind) == Counted(OfKind(parts, kind)))
    && r.gpuGb == Total(r.parts, Gpu)
    && r.hostGb == Total(r.parts, Host)
  }

  lemma {:induction false} OfAbsentKind(parts: seq<Part>, kind: Kind)
    requires forall i :: 0 <= i < |parts| ==> parts[i].kind != kind
    ensures OfKind(parts, kind) == 0.0
  {
    if parts != [] {
      OfAbsentKind(parts[..|parts| - 1], kind);
    }
  }

  /** The sums by kind, and the kinds in the order they first appear. */
  method SumByKind(parts: seq<Part>) returns (byKind: map<Kind, real>, order: seq<Kind>)
    ensures forall kind :: kind in byKind <==> kind in order
    ensures Distinct(order)
    ensures forall kind :: OfKind(parts, kind) == if kind in byKind then byKind[kind] else 0.0
  {
    byKind, order := map[], [];
    for i := 0 to |parts|
      invariant forall kind :: kind in byKind <==> kind in order
      invariant Distinct(order)
      invariant forall kind :: OfKind(parts[..i], kind) == if kind in byKind then byKind[kind] else 0.0
    {
      var Part(kind, gb) := parts[i];
      assert parts[..i + 1][..i] == parts[..i];
      if kind !in byKind {
        order := order + [kind];
      }
      byKind := byKind[kind := (if kind in byKind then byKind[kind] else 0.0) + gb];
    }
    assert parts[..|parts|] == parts;
  }

  lemma {:induction false} OfKindPush(parts: seq<Part>, part: Part, kind: Kind)
    ensures OfKind(parts + [part], kind) == OfKind(parts, kind) + if part.kind == kind then part.gb else 0.0
  {
    assert (parts + [part])[..|parts|] == parts;
  }

  /** The positive sums of the first kinds, each kind once. */
  ghost predicate IsMerged(merged: seq<Part>, kinds: seq<Kind>, byKind: map<Kind, real>)
    requires forall kind :: kind in kinds ==> kind in byKind
  {
    && AllPositive(merged)
    && (forall a :: 0 <= a < |merged| ==> merged[a].kind in kinds)
    && (forall a, b :: 0 <= a < b < |merged| ==> merged[a].kind != merged[b].kind)
    && (forall kind :: OfKind(merged, kind) == if kind in kinds then Counted(byKind[kind]) else 0.0)
  }

  lemma {:induction false} MergeOneMore(merged: seq<Part>, order: seq<Kind>, byKind: map<Kind, real>)
    requires order != [] && (forall k :: k in order ==> k in byKind) && Distinct(order)
    requires IsMerged(merged, order[..|order| - 1], byKind)
    ensures var kind := order[|order| - 1];
      IsMerged(if byKind[kind] > 0.0 then merged + [Part(kind, byKind[kind])] else merged, order, byKind)
  {
    var kinds, kind := order[..|order| - 1], order[|order| - 1];
    var after := if byKind[kind] > 0.0 then merged + [Part(kind, byKind[kind])] else merged;
    assert kind !in kinds;
    forall k ensures OfKind(after, k) == if k in order then Counted(byKind[k]) else 0.0 {
      OfKindPush(merged, Part(kind, byKind[kind]), k);
      assert OfKind(merged, k) == if k in kinds then Counted(byKind[k]) else 0.0;
      assert k in order <==> k in kinds || k == kind;
    }
    forall a | 0 <= a < |after| ensures after[a].kind in order {
      assert a < |merged| ==> after[a] == merged[a] && merged[a].kind in kinds;
    }
  }

  function PositiveParts(order: seq<Kind>, byKind: map<Kind, real>): seq<Part>
    requires forall kind :: kind in order ==> kind in byKind
  {
    if order == [] then []
    else
      var before, kind := PositiveParts(order[..|order| - 1], byKind), order[|order| - 1];
      if byKind[kind] > 0.0 then before + [Part(kind, byKind[kind])] else before
  }

  predicate Distinct(order: seq<Kind>) { forall a, b :: 0 <= a < b < |order| ==> order[a] != order[b] }

  lemma {:induction false} PositivePartsAreMerged(order: seq<Kind>, byKind: map<Kind, real>)
    requires (forall kind :: kind in order ==> kind in byKind) && Distinct(order)
    ensures IsMerged(PositiveParts(order, byKind), order, byKind)
  {
    if order != [] {
      PositivePartsAreMerged(order[..|order| - 1], byKind);
      MergeOneMore(PositiveParts(order[..|order| - 1], byKind), order, byKind);
    }
  }

  method PartedOf(parts: seq<Part>) returns (r: Parted)
    ensures IsParted(parts, r)
  {
    var byKind, order := SumByKind(parts);
    var merged := PositiveParts(order, byKind);
    PositivePartsAreMerged(order, byKind);
    r := Parted(Total(merged, Gpu), Total(merged, Host), merged);
  }

  /** A total is the sum over its kinds. */
  lemma {:induction false} TotalByKind(parts: seq<Part>)
    ensures Total(parts, Gpu)
        == OfKind(parts, Weights) + OfKind(parts, KvCache) + OfKind(parts, Engine) + OfKind(parts, Speculative)
    ensures Total(parts, Host) == OfKind(parts, HostWeights) + OfKind(parts, Communicators)
                                    + OfKind(parts, EngineProcess) + OfKind(parts, ImageInput)
  {
    if parts != [] {
      TotalByKind(parts[..|parts| - 1]);
    }
  }

  lemma {:induction false} OfKindJoin(a: seq<Part>, b: seq<Part>, kind: Kind)
    ensures OfKind(a + b, kind) == OfKind(a, kind) + OfKind(b, kind)
  {
    if b == [] {
      assert a + b == a;
    } else {
      assert (a + b)[..|a + b| - 1] == a + b[..|b| - 1];
      OfKindJoin(a, b[..|b| - 1], kind);
    }
  }

  lemma {:induction false} PositiveOfKind(parts: seq<Part>, kind: Kind)
    requires AllPositive(parts)
    ensures OfKind(parts, kind) >= 0.0
  {
    if parts != [] {
      PositiveOfKind(parts[..|parts| - 1], kind);
    }
  }

  // A whole deployment

  datatype Profile = Profile(
    wholeGb: real,
    splitGb: real,
    gpuSpeculativeGb: real,
    hostLeaderGb: real,
    hostFollowerGb: real,
    hostVisionGb: real,
    hostPerImageInFlightGb: real,
    pinnedPerCommunicatorGb: real,
    hostWeightAllocationGb: real -> real)

  datatype Entry = Entry(
    weightGb: real,
    hostWeightGb: Option<real>,
    sparse: bool,
    heads: Heads,
    vision: bool,
    speculative: bool)

  datatype Placement = Placement(cardsPerNode: Pos, nodes: Pos) {
    function Ranks(): Pos { RanksArePositive(cardsPerNode, nodes); cardsPerNode * nodes }
  }

  lemma RanksArePositive(a: Pos, b: Pos)
    ensures a * b > 0
  {
  }

  datatype Request = Request(layout: Placement, kvCacheGb: real, imagesInFlight: nat, profile: Profile)

  function SharedParts(entry: Entry, request: Request, share: real): seq<Part> {
    var ranks, profile, hostWeightGb := request.layout.Ranks(), request.profile, entry.hostWeightGb.GetOr(0.0);
    [ Part(Weights, (entry.weightGb - hostWeightGb) / ranks as real),
      Part(KvCache, request.kvCacheGb * share),
      Part(Engine, if ranks > 1 then profile.splitGb else profile.wholeGb),
      Part(Speculative, if entry.speculative then profile.gpuSpeculativeGb else 0.0),
      Part(HostWeights, profile.hostWeightAllocationGb(hostWeightGb / ranks as real)),
      Part(Communicators,
           if request.layout.nodes > 1 then (if entry.sparse then 2.0 else 1.0) * profile.pinnedPerCommunicatorGb
           else 0.0)
    ]
  }

  function LeaderParts(entry: Entry, request: Request): seq<Part> {
    [ Part(EngineProcess, request.profile.hostLeaderGb),
      Part(ImageInput,
           if entry.vision then
             request.profile.hostVisionGb + request.imagesInFlight as real * request.profile.hostPerImageInFlightGb
           else 0.0)
    ]
  }

  function RankParts(entry: Entry, request: Request, share: real, rank: nat): seq<Part> {
    SharedParts(entry, request, share)
      + if rank == 0 then LeaderParts(entry, request) else [Part(EngineProcess, request.profile.hostFollowerGb)]
  }

  /** Ranks fill one node after the other: the whole quotient of the rank. */
  function NodeOf(rank: nat, cardsPerNode: Pos): nat {
    if rank < cardsPerNode then 0 else NodeOf(rank - cardsPerNode, cardsPerNode) + 1
  }

  datatype RankFootprint = RankFootprint(node: nat, parted: Parted)

  datatype Footprint = Footprint(ranks: seq<RankFootprint>, nodes: seq<Parted>, gpuGb: real, hostGb: real)

  function NodeParts(ranks: seq<RankFootprint>, node: nat): seq<Part> {
    if ranks == [] then []
    else
      var last := ranks[|ranks| - 1];
      NodeParts(ranks[..|ranks| - 1], node) + if last.node == node then last.parted.parts else []
  }

  function SumGpu(nodes: seq<Parted>): real {
    if nodes == [] then 0.0 else SumGpu(nodes[..|nodes| - 1]) + nodes[|nodes| - 1].gpuGb
  }

  function SumHost(nodes: seq<Parted>): real {
    if nodes == [] then 0.0 else SumHost(nodes[..|nodes| - 1]) + nodes[|nodes| - 1].hostGb
  }

  ghost predicate RanksRight(entry: Entry, request: Request, share: real, ranks: seq<RankFootprint>) {
    && (forall i :: 0 <= i < |ranks| ==> ranks[i].node == NodeOf(i, request.layout.cardsPerNode))
    && (forall i :: 0 <= i < |ranks| ==> IsParted(RankParts(entry, request, share, i), ranks[i].parted))
  }

  ghost predicate NodesRight(ranks: seq<RankFootprint>, nodes: seq<Parted>) {
    forall j :: 0 <= j < |nodes| ==> IsParted(NodeParts(ranks, j), nodes[j])
  }

  /** Every rank is charged its own parts, every node those of its ranks, and the deployment its nodes. */
  ghost predicate IsFootprint(entry: Entry, request: Request, share: real, f: Footprint) {
    && |f.ranks| == request.layout.Ranks() && |f.nodes| == request.layout.nodes
    && RanksRight(entry, request, share, f.ranks)
    && NodesRight(f.ranks, f.nodes)
    && f.gpuGb == SumGpu(f.nodes)
    && f.hostGb == SumHost(f.nodes)
  }

  method DeploymentFootprint(entry: Entry, request: Request) returns (r: Option<Footprint>)
    ensures r.None? <==> KvCacheSharePerCard(entry.heads, request.layout.Ranks()).None?
    ensures r.Some?
        ==> IsFootprint(entry, request, KvCacheSharePerCard(entry.heads, request.layout.Ranks()).value, r.value)
  {
    var share := KvCacheSharePerCard(entry.heads, request.layout.Ranks());
    if share.None? {
      return None;
    }
    var ranks: seq<RankFootprint> := [];
    for rank := 0 to request.layout.Ranks()
      invariant |ranks| == rank && RanksRight(entry, request, share.value, ranks)
    {
      var parted := PartedOf(RankParts(entry, request, share.value, rank));
      ranks := ranks + [RankFootprint(NodeOf(rank, request.layout.cardsPerNode), parted)];
    }
    var nodes: seq<Parted> := [];
    for node := 0 to request.layout.nodes
      invariant |nodes| == node && NodesRight(ranks, nodes)
    {
      var parted := PartedOf(NodeParts(ranks, node));
      nodes := nodes + [parted];
    }
    r := Some(Footprint(ranks, nodes, SumGpu(nodes), SumHost(nodes)));
  }

  // Accounting

  /** One kind of part on the ranks of the nodes below n. */
  function OnNodesBelow(ranks: seq<RankFootprint>, n: nat, kind: Kind): real {
    if ranks == [] then 0.0
    else
      var last := ranks[|ranks| - 1];
      OnNodesBelow(ranks[..|ranks| - 1], n, kind) + if last.node < n then OfKind(last.parted.parts, kind) else 0.0
  }

  /** One kind of part on all ranks. */
  function OnRanks(ranks: seq<RankFootprint>, kind: Kind): real {
    if ranks == [] then 0.0 else OnRanks(ranks[..|ranks| - 1], kind) + OfKind(ranks[|ranks| - 1].parted.parts, kind)
  }

  predicate AllPartsPositive(ranks: seq<RankFootprint>) {
    forall i :: 0 <= i < |ranks| ==> AllPositive(ranks[i].parted.parts)
  }

  lemma {:induction false} NodeByNode(ranks: seq<RankFootprint>, n: nat, kind: Kind)
    requires AllPartsPositive(ranks)
    ensures AllPositive(NodeParts(ranks, n))
    ensures OnNodesBelow(ranks, n + 1, kind) == OnNodesBelow(ranks, n, kind) + OfKind(NodeParts(ranks, n), kind)
    ensures OnNodesBelow(ranks, 0, kind) == 0.0
  {
    if ranks != [] {
      var before, last := ranks[..|ranks| - 1], ranks[|ranks| - 1];
      NodeByNode(before, n, kind);
      OfKindJoin(NodeParts(before, n), if last.node == n then last.parted.parts else [], kind);
    }
  }

  lemma {:induction false} AllNodesAreAllRanks(ranks: seq<RankFootprint>, n: nat, kind: Kind)
    requires forall i :: 0 <= i < |ranks| ==> ranks[i].node < n
    ensures OnNodesBelow(ranks, n, kind) == OnRanks(ranks, kind)
  {
    if ranks != [] {
      AllNodesAreAllRanks(ranks[..|ranks| - 1], n, kind);
    }
  }

  /** A node holds of each kind what its ranks hold. */
  lemma NodeKeepsParts(ranks: seq<RankFootprint>, node: nat, parted: Parted, kind: Kind)
    requires AllPartsPositive(ranks) && IsParted(NodeParts(ranks, node), parted)
    ensures OfKind(parted.parts, kind) == OfKind(NodeParts(ranks, node), kind)
    ensures OnNodesBelow(ranks, node + 1, kind) == OnNodesBelow(ranks, node, kind) + OfKind(parted.parts, kind)
  {
    NodeByNode(ranks, node, kind);
    PositiveOfKind(NodeParts(ranks, node), kind);
  }

  function GpuOf(held: Kind -> real): real { held(Weights) + held(KvCache) + held(Engine) + held(Speculative) }

  function HostOf(held: Kind -> real): real {
    held(HostWeights) + held(Communicators) + held(EngineProcess) + held(ImageInput)
  }

  lemma {:induction false} NodesSum(ranks: seq<RankFootprint>, nodes: seq<Parted>)
    requires AllPartsPositive(ranks) && NodesRight(ranks, nodes)
    ensures SumGpu(nodes) == GpuOf(kind => OnNodesBelow(ranks, |nodes|, kind))
    ensures SumHost(nodes) == HostOf(kind => OnNodesBelow(ranks, |nodes|, kind))
  {
    if nodes == [] {
      forall kind ensures OnNodesBelow(ranks, 0, kind) == 0.0 { NodeByNode(ranks, 0, kind); }
    } else {
      var n := |nodes| - 1;
      NodesSum(ranks, nodes[..n]);
      TotalByKind(nodes[n].parts);
      forall kind ensures OnNodesBelow(ranks, n + 1, kind)
        == OnNodesBelow(ranks, n, kind) + OfKind(nodes[n].parts, kind) {
        NodeKeepsParts(ranks, n, nodes[n], kind);
      }
    }
  }

  lemma {:induction false} NodeInRange(rank: nat, cards: Pos, nodes: Pos)
    requires rank < cards * nodes
    ensures cards * NodeOf(rank, cards) <= rank < cards * NodeOf(rank, cards) + cards
    ensures NodeOf(rank, cards) < nodes
  {
    if rank >= cards {
      assert cards * (nodes - 1) == cards * nodes - cards;
      NodeInRange(rank - cards, cards, nodes - 1);
      assert cards * NodeOf(rank, cards) == cards * NodeOf(rank - cards, cards) + cards;
    }
  }

  /** Grouping ranks by node loses and doubles nothing: the deployment holds what its ranks hold, kind by kind. */
  lemma TotalsAreConserved(entry: Entry, request: Request, share: real, f: Footprint)
    requires IsFootprint(entry, request, share, f)
    ensures f.gpuGb == GpuOf(kind => OnRanks(f.ranks, kind))
    ensures f.hostGb == HostOf(kind => OnRanks(f.ranks, kind))
  {
    NodesSum(f.ranks, f.nodes);
    forall i | 0 <= i < |f.ranks| ensures f.ranks[i].node < |f.nodes| {
      NodeInRange(i, request.layout.cardsPerNode, request.layout.nodes);
    }
    forall kind ensures OnNodesBelow(f.ranks, |f.nodes|, kind) == OnRanks(f.ranks, kind) {
      AllNodesAreAllRanks(f.ranks, |f.nodes|, kind);
    }
  }

  // What the ranks hold

  lemma {:induction false} OfOnlyKind(parts: seq<Part>, i: nat)
    requires i < |parts| && forall j :: 0 <= j < |parts| && j != i ==> parts[j].kind != parts[i].kind
    ensures OfKind(parts, parts[i].kind) == parts[i].gb
  {
    if i == |parts| - 1 {
      OfAbsentKind(parts[..i], parts[i].kind);
    } else {
      OfOnlyKind(parts[..|parts| - 1], i);
    }
  }

  /** What one rank is charged of a kind; rank 0 leads. */
  function Charge(entry: Entry, request: Request, share: real, rank: nat, kind: Kind): real {
    var ranks, profile, hostWeightGb := request.layout.Ranks(), request.profile, entry.hostWeightGb.GetOr(0.0);
    match kind
    case Weights => Counted((entry.weightGb - hostWeightGb) / ranks as real)
    case KvCache => Counted(request.kvCacheGb * share)
    case Engine => Counted(if ranks > 1 then profile.splitGb else profile.wholeGb)
    case Speculative => if entry.speculative then Counted(profile.gpuSpeculativeGb) else 0.0
    case HostWeights => Counted(profile.hostWeightAllocationGb(hostWeightGb / ranks as real))
    case Communicators =>
      if request.layout.nodes > 1 then Counted((if entry.sparse then 2.0 else 1.0) * profile.pinnedPerCommunicatorGb)
      else 0.0
    case EngineProcess => Counted(if rank == 0 then profile.hostLeaderGb else profile.hostFollowerGb)
    case ImageInput =>
      if entry.vision && rank == 0 then
        Counted(profile.hostVisionGb + request.imagesInFlight as real * profile.hostPerImageInFlightGb)
      else 0.0
  }

  lemma {:induction false} RankIsCharged(entry: Entry, request: Request, share: real, rank: nat, kind: Kind)
    ensures Counted(OfKind(RankParts(entry, request, share, rank), kind)) == Charge(entry, request, share, rank, kind)
  {
    var parts := RankParts(entry, request, share, rank);
    match kind
    case Weights => OfOnlyKind(parts, 0);
    case KvCache => OfOnlyKind(parts, 1);
    case Engine => OfOnlyKind(parts, 2);
    case Speculative => OfOnlyKind(parts, 3);
    case HostWeights => OfOnlyKind(parts, 4);
    case Communicators => OfOnlyKind(parts, 5);
    case EngineProcess => OfOnlyKind(parts, 6);
    case ImageInput => if rank == 0 { OfOnlyKind(parts, 7); } else { OfAbsentKind(parts, ImageInput); }
  }

  /** The same charge on n ranks. */
  function OnEach(n: nat, gb: real): real {
    if n == 0 then 0.0 else OnEach(n - 1, gb) + gb
  }

  lemma {:induction false} OnEachIsProduct(n: nat, gb: real)
    ensures OnEach(n, gb) == n as real * gb
  {
    if n > 0 {
      OnEachIsProduct(n - 1, gb);
      assert n as real * gb == (n - 1) as real * gb + gb;
    }
  }

  lemma {:induction false} ChargedAlike(ranks: seq<RankFootprint>, charge: nat -> real, kind: Kind)
    requires ranks != []
    requires forall i: nat :: i < |ranks| ==> OfKind(ranks[i].parted.parts, kind) == charge(i)
    requires forall i: nat :: 0 < i < |ranks| ==> charge(i) == charge(1)
    ensures OnRanks(ranks, kind) == charge(0) + OnEach(|ranks| - 1, charge(1))
  {
    var n := |ranks| - 1;
    assert OfKind(ranks[n].parted.parts, kind) == charge(n);
    if n == 0 {
      assert ranks[..n] == [];
    } else {
      ChargedAlike(ranks[..n], charge, kind);
    }
  }

  lemma RanksCharged(entry: Entry, request: Request, share: real, ranks: seq<RankFootprint>, kind: Kind,
                     charge: nat -> real)
    requires RanksRight(entry, request, share, ranks)
        && forall i: nat :: charge(i) == Charge(entry, request, share, i, kind)
    ensures forall i: nat :: i < |ranks| ==> OfKind(ranks[i].parted.parts, kind) == charge(i)
  {
    forall i: nat | i < |ranks| ensures OfKind(ranks[i].parted.parts, kind) == charge(i) {
      assert IsParted(RankParts(entry, request, share, i), ranks[i].parted);
      RankIsCharged(entry, request, share, i, kind);
    }
  }

  lemma FollowersAlike(entry: Entry, request: Request, share: real, kind: Kind, charge: nat -> real)
    requires forall i: nat :: charge(i) == Charge(entry, request, share, i, kind)
    ensures forall i: nat :: 0 < i ==> charge(i) == charge(1)
  {
  }

  /** The deployment's memory of each kind: what the leading rank is charged, and the same for every other rank. */
  lemma {:induction false} KindInClosedForm(entry: Entry, request: Request, share: real, ranks: seq<RankFootprint>,
                                            kind: Kind)
    requires ranks != [] && RanksRight(entry, request, share, ranks)
    ensures OnRanks(ranks, kind)
        == Charge(entry, request, share, 0, kind) + OnEach(|ranks| - 1, Charge(entry, request, share, 1, kind))
  {
    var charge: nat -> real := (rank: nat) => Charge(entry, request, share, rank, kind);
    RanksCharged(entry, request, share, ranks, kind, charge);
    FollowersAlike(entry, request, share, kind, charge);
    ChargedAlike(ranks, charge, kind);
  }

  lemma SplitEvenly(weights: real, ranks: Pos, total: real)
    requires weights >= 0.0
        && total == Counted(weights / ranks as real) + OnEach(ranks - 1, Counted(weights / ranks as real))
    ensures total == weights
  {
    var part := Counted(weights / ranks as real);
    assert OnEach(ranks, part) == OnEach(ranks - 1, part) + part;
    OnEachIsProduct(ranks, part);
  }

  /** However the cache is split or copied, the ranks hold it at least once. */
  lemma {:induction false} CopiesCoverCache(heads: Heads, ranks: Pos, share: real, cache: real, charge: real)
    requires KvCacheSharePerCard(heads, ranks) == Some(share) && cache >= 0.0
    requires charge == Counted(cache * share)
    ensures OnEach(ranks, charge) >= cache
  {
    SharesCoverCache(heads, ranks);
    CopiedCache(cache, share, ranks as real, ranks, charge);
  }

  lemma {:induction false} CopiedCache(cache: real, share: real, n: real, ranks: Pos, charge: real)
    requires cache >= 0.0 && share > 0.0 && n == ranks as real && n * share >= 1.0
    requires charge == Counted(cache * share)
    ensures OnEach(ranks, charge) >= cache
  {
    assert cache * share >= 0.0;
    OnEachIsProduct(ranks, charge);
    Scaled(cache, n * share);
    assert n * (cache * share) == cache * (n * share);
  }

  lemma {:induction false} OnRanksNotNegative(ranks: seq<RankFootprint>, kind: Kind)
    requires AllPartsPositive(ranks)
    ensures OnRanks(ranks, kind) >= 0.0
  {
    if ranks != [] {
      OnRanksNotNegative(ranks[..|ranks| - 1], kind);
      PositiveOfKind(ranks[|ranks| - 1].parted.parts, kind);
    }
  }

  lemma WeightsAreSplit(entry: Entry, request: Request, share: real, f: Footprint)
    requires IsFootprint(entry, request, share, f) && entry.hostWeightGb.GetOr(0.0) <= entry.weightGb
    ensures OnRanks(f.ranks, Weights) == entry.weightGb - entry.hostWeightGb.GetOr(0.0)
  {
    KindInClosedForm(entry, request, share, f.ranks, Weights);
    SplitEvenly(entry.weightGb - entry.hostWeightGb.GetOr(0.0), request.layout.Ranks(), OnRanks(f.ranks, Weights));
  }

  lemma {:induction false} CacheOnRanks(entry: Entry, request: Request, share: real, ranks: seq<RankFootprint>,
                                        charge: real)
    requires ranks != [] && RanksRight(entry, request, share, ranks)
    requires Charge(entry, request, share, 0, KvCache) == charge == Charge(entry, request, share, 1, KvCache)
    ensures OnRanks(ranks, KvCache) == OnEach(|ranks|, charge)
  {
    KindInClosedForm(entry, request, share, ranks, KvCache);
  }

  lemma {:induction false} GpuHoldsBoth(ranks: seq<RankFootprint>, gpuGb: real)
    requires AllPartsPositive(ranks) && gpuGb == GpuOf(kind => OnRanks(ranks, kind))
    ensures gpuGb >= OnRanks(ranks, Weights) + OnRanks(ranks, KvCache)
  {
    OnRanksNotNegative(ranks, Engine);
    OnRanksNotNegative(ranks, Speculative);
  }

  lemma {:induction false} CacheIsHeld(entry: Entry, request: Request, share: real, ranks: seq<RankFootprint>)
    requires ranks != [] && RanksRight(entry, request, share, ranks) && request.kvCacheGb >= 0.0
    requires KvCacheSharePerCard(entry.heads, |ranks|) == Some(share)
    ensures OnRanks(ranks, KvCache) >= request.kvCacheGb
  {
    var charge := CacheChargesCover(entry, request, share, |ranks|);
    CacheOnRanks(entry, request, share, ranks, charge);
  }

  lemma {:induction false} CacheChargesCover(entry: Entry, request: Request, share: real,
                                             ranks: Pos) returns (charge: real)
    requires KvCacheSharePerCard(entry.heads, ranks) == Some(share) && request.kvCacheGb >= 0.0
    ensures Charge(entry, request, share, 0, KvCache) == charge == Charge(entry, request, share, 1, KvCache)
    ensures OnEach(ranks, charge) >= request.kvCacheGb
  {
    charge := Charge(entry, request, share, 0, KvCache);
    CopiesCoverCache(entry.heads, ranks, share, request.kvCacheGb, charge);
  }

  /** The cards' memory holds every weight that is not on the host, exactly once, and the whole cache at least once. */
  lemma {:induction false} GpuHoldsModel(entry: Entry, request: Request, share: real, f: Footprint)
    requires IsFootprint(entry, request, share, f) && KvCacheSharePerCard(entry.heads, |f.ranks|) == Some(share)
    requires entry.hostWeightGb.GetOr(0.0) <= entry.weightGb && request.kvCacheGb >= 0.0
    ensures OnRanks(f.ranks, Weights) == entry.weightGb - entry.hostWeightGb.GetOr(0.0)
    ensures OnRanks(f.ranks, KvCache) >= request.kvCacheGb
    ensures f.gpuGb >= entry.weightGb - entry.hostWeightGb.GetOr(0.0) + request.kvCacheGb
  {
    TotalsAreConserved(entry, request, share, f);
    WeightsAreSplit(entry, request, share, f);
    CacheIsHeld(entry, request, share, f.ranks);
    GpuHoldsBoth(f.ranks, f.gpuGb);
  }
}
