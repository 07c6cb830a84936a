/** The subnets over which coupled ports reach each other by RDMA.

    A port counts with the addresses RDMA can use on its paths with a carrier, a node with its first
    address on every subnet. */
module RdmaSubnets {
  import opened Listing
  import opened Options
  import Arithmetic
  import Text
  import Decimal
  import Ipv4

  datatype Path = Path(networkInterface: string, carrier: bool, ipv4: seq<string>, roceV2Ipv4: seq<string>)

  datatype Endpoint = Endpoint(networkInterface: string, ipv4: string)

  datatype Reach = Reach(network: nat, prefix: int, endpoint: Endpoint)

  function AddressReach(path: Path, text: string): seq<Reach> {
    match Ipv4.ParseCidr(text)
    case Some(cidr) =>
      if cidr.address in path.roceV2Ipv4 then
        [Reach(cidr.network, cidr.prefix, Endpoint(path.networkInterface, cidr.address))]
      else []
    case None => []
  }

  function PathAddresses(path: Path, cidrs: seq<string>): seq<Reach> {
    if cidrs == [] then [] else AddressReach(path, cidrs[0]) + PathAddresses(path, cidrs[1..])
  }

  /** The addresses RDMA can use, over the paths that have a carrier. */
  function RdmaAddresses(paths: seq<Path>): seq<Reach> {
    if paths == [] then []
    else (if paths[0].carrier then PathAddresses(paths[0], paths[0].ipv4) else []) + RdmaAddresses(paths[1..])
  }

  predicate SameSubnet(a: Reach, b: Reach) { a.network == b.network && a.prefix == b.prefix }

  // Which addresses count.

  /** Every address of every path, path by path. */
  function AllAddresses(paths: seq<Path>): seq<(Path, string)> {
    if paths == [] then [] else OfPath(paths[0], paths[0].ipv4) + AllAddresses(paths[1..])
  }

  function OfPath(path: Path, cidrs: seq<string>): seq<(Path, string)> {
    if cidrs == [] then [] else [(path, cidrs[0])] + OfPath(path, cidrs[1..])
  }

  /** The address is in CIDR notation, its path has a carrier and RDMA can use it: this is where it leads. */
  predicate IsReach(address: (Path, string), reach: Reach) {
    var (path, text) := address;
    && path.carrier && Ipv4.ParseCidr(text).Some?
    && var cidr := Ipv4.ParseCidr(text).value;
       cidr.address in path.roceV2Ipv4
       && reach == Reach(cidr.network, cidr.prefix, Endpoint(path.networkInterface, cidr.address))
  }

  /** What is kept of the addresses of one path. */
  function KeptOf(path: Path, cidrs: seq<string>): seq<Reach> {
    if path.carrier then PathAddresses(path, cidrs) else []
  }

  lemma {:induction false} KeptOfOne(path: Path, text: string) returns (at: seq<nat>)
    ensures Keeps([(path, text)], if path.carrier then AddressReach(path, text) else [], at, IsReach)
  {
    var kept := if path.carrier then AddressReach(path, text) else [];
    assert kept != [] ==> IsReach((path, text), kept[0]);
    assert kept == [] ==> forall u :: !IsReach((path, text), u);
    at := KeepsOne((path, text), kept, IsReach);
  }

  lemma {:induction false} PathIsKept(path: Path, cidrs: seq<string>) returns (at: seq<nat>)
    ensures Keeps(OfPath(path, cidrs), KeptOf(path, cidrs), at, IsReach)
  {
    at := [];
    if cidrs != [] {
      var one := KeptOfOne(path, cidrs[0]);
      var rest := PathIsKept(path, cidrs[1..]);
      KeepsConcat([(path, cidrs[0])], if path.carrier then AddressReach(path, cidrs[0]) else [], one,
                  OfPath(path, cidrs[1..]), KeptOf(path, cidrs[1..]), rest, IsReach);
      at := one + Moved(rest, 1);
    }
  }

  /** The addresses RDMA can use: exactly the usable ones on paths with a carrier, in their order. */
  lemma {:induction false} UsableAddressesAreKept(paths: seq<Path>) returns (at: seq<nat>)
    ensures Keeps(AllAddresses(paths), RdmaAddresses(paths), at, IsReach)
  {
    at := [];
    if paths != [] {
      var first := OfPath(paths[0], paths[0].ipv4);
      var kept := KeptOf(paths[0], paths[0].ipv4);
      var one := PathIsKept(paths[0], paths[0].ipv4);
      var rest := UsableAddressesAreKept(paths[1..]);
      KeepsConcat(first, kept, one, AllAddresses(paths[1..]), RdmaAddresses(paths[1..]), rest, IsReach);
      at := one + Moved(rest, |first|);
    }
  }

  /** The first address of ours that shares a subnet with any of theirs, and the first of theirs it shares one with. */
  predicate IsFirstPair(ours: seq<Reach>, theirs: seq<Reach>, i: nat, j: nat) {
    && i < |ours| && j < |theirs| && SameSubnet(ours[i], theirs[j])
    && (forall k, other :: 0 <= k < i && other in theirs ==> !SameSubnet(ours[k], other))
    && forall k :: 0 <= k < j ==> !SameSubnet(ours[i], theirs[k])
  }

  /** None of these addresses shares a subnet with any of those. */
  predicate NonePaired(ours: seq<Reach>, theirs: seq<Reach>) {
    forall mine, other :: mine in ours && other in theirs ==> !SameSubnet(mine, other)
  }

  lemma {:induction false} OneMoreUnpaired(ours: seq<Reach>, theirs: seq<Reach>, i: nat)
    requires i < |ours| && NonePaired(ours[..i], theirs)
    requires forall k :: 0 <= k < |theirs| ==> !SameSubnet(ours[i], theirs[k])
    ensures NonePaired(ours[..i + 1], theirs)
  {
    assert ours[..i + 1] == ours[..i] + [ours[i]];
  }

  lemma {:induction false} FirstPair(ours: seq<Reach>, theirs: seq<Reach>, i: nat, j: nat)
    requires i < |ours| && NonePaired(ours[..i], theirs) && j < |theirs| && SameSubnet(ours[i], theirs[j])
    requires forall k :: 0 <= k < j ==> !SameSubnet(ours[i], theirs[k])
    ensures IsFirstPair(ours, theirs, i, j) && !NonePaired(ours, theirs)
  {
    assert forall k :: 0 <= k < i ==> ours[k] == ours[..i][k];
    assert ours[i] in ours && theirs[j] in theirs;
  }

  /** The first address of the first port that shares a subnet with the second, with the first match there. */
  method RdmaEndpoints(a: seq<Path>, b: seq<Path>) returns (r: Option<(Endpoint, Endpoint)>)
    ensures r.None? <==> NonePaired(RdmaAddresses(a), RdmaAddresses(b))
    ensures r.Some? ==> exists i: nat, j: nat :: IsFirstPair(RdmaAddresses(a), RdmaAddresses(b), i, j)
                                    && r.value == (RdmaAddresses(a)[i].endpoint, RdmaAddresses(b)[j].endpoint)
  {
    var ours, others := RdmaAddresses(a), RdmaAddresses(b);
    for i := 0 to |ours|
      invariant NonePaired(ours[..i], others)
    {
      var found := FirstMatch(ours[i], others);
      if found.Some? {
        FirstPair(ours, others, i, found.value);
        return Some((ours[i].endpoint, others[found.value].endpoint));
      }
      OneMoreUnpaired(ours, others, i);
    }
    assert ours[..|ours|] == ours;
    return None;
  }

  /** Where the first address of theirs that shares its subnet stands. */
  function FirstMatch(mine: Reach, theirs: seq<Reach>): (j: Option<nat>)
    ensures j.Some? ==>
      && j.value < |theirs| && SameSubnet(mine, theirs[j.value])
      && forall k :: 0 <= k < j.value ==> !SameSubnet(mine, theirs[k])
    ensures j.None? ==> forall k :: 0 <= k < |theirs| ==> !SameSubnet(mine, theirs[k])
  {
    if theirs == [] then None
    else if SameSubnet(mine, theirs[0]) then Some(0)
    else
      match FirstMatch(mine, theirs[1..])
      case None => None
      case Some(j) => Some(j + 1)
  }

  function SubnetName(reach: Reach): string {
    Ipv4.FormatIpv4(reach.network) + "/" + Decimal.Print(reach.prefix)
  }

  /** The node's first address on the subnet of that name. */
  function FirstOn(reaches: seq<Reach>, subnet: string): Option<string> {
    if reaches == [] then None
    else if SubnetName(reaches[0]) == subnet then Some(reaches[0].endpoint.ipv4)
    else FirstOn(reaches[1..], subnet)
  }

  datatype Located = Located(nodeId: string, paths: seq<Path>)

  function AddressesOf(ports: seq<Located>, nodeId: string): seq<Reach> {
    if ports == [] then []
    else (if ports[0].nodeId == nodeId then RdmaAddresses(ports[0].paths) else []) + AddressesOf(ports[1..], nodeId)
  }

  datatype SharedSubnet = SharedSubnet(subnet: string, addresses: map<string, string>)

  lemma {:induction false} FirstOnPush(reaches: seq<Reach>, reach: Reach, subnet: string)
    ensures FirstOn(reaches + [reach], subnet) ==
      if FirstOn(reaches, subnet).Some? then FirstOn(reaches, subnet)
      else if SubnetName(reach) == subnet then Some(reach.endpoint.ipv4)
      else None
  {
    if reaches != [] {
      assert (reaches + [reach])[1..] == reaches[1..] + [reach];
      FirstOnPush(reaches[1..], reach, subnet);
    }
  }

  /** The subnets are those of the reaches, each with its first address. */
  ghost predicate Names(reaches: seq<Reach>, subnets: map<string, string>) {
    forall subnet :: FirstOn(reaches, subnet) == if subnet in subnets then Some(subnets[subnet]) else None
  }

  lemma {:induction false} NamesPush(reaches: seq<Reach>, reach: Reach, subnets: map<string, string>)
    requires Names(reaches, subnets)
    ensures SubnetName(reach) in subnets ==> Names(reaches + [reach], subnets)
    ensures SubnetName(reach) !in subnets
      ==> Names(reaches + [reach], subnets[SubnetName(reach) := reach.endpoint.ipv4])
  {
    forall subnet {
      FirstOnPush(reaches, reach, subnet);
    }
  }

  ghost predicate EachOnce(order: seq<string>, subnets: map<string, string>) {
    && (forall subnet :: subnet in order <==> subnet in subnets)
    && (forall i, j :: 0 <= i < j < |order| ==> order[i] != order[j])
  }

  lemma {:induction false} EachOncePush(order: seq<string>, subnets: map<string, string>, name: string, address: string)
    requires EachOnce(order, subnets) && name !in subnets
    ensures EachOnce(order + [name], subnets[name := address])
  {
  }

  /** A node's subnets in the order they first appear, each with its first address. */
  method SubnetsOf(reaches: seq<Reach>) returns (order: seq<string>, subnets: map<string, string>)
    ensures EachOnce(order, subnets)
    ensures Names(reaches, subnets)
  {
    order, subnets := [], map[];
    for n := 0 to |reaches|
      invariant EachOnce(order, subnets)
      invariant Names(reaches[..n], subnets)
    {
      var name := SubnetName(reaches[n]);
      assert reaches[..n + 1] == reaches[..n] + [reaches[n]];
      NamesPush(reaches[..n], reaches[n], subnets);
      if name !in subnets {
        EachOncePush(order, subnets, name, reaches[n].endpoint.ipv4);
        order := order + [name];
        subnets := subnets[name := reaches[n].endpoint.ipv4];
      }
    }
    assert reaches[..|reaches|] == reaches;
  }

  /** A node with its subnets, in the order they first appear on its ports, and its address on each. */
  datatype Node = Node(nodeId: string, order: seq<string>, subnets: map<string, string>) {
    ghost predicate Valid() { EachOnce(order, subnets) }
  }

  /** The node's subnets are those of its ports, with the first address on each. */
  ghost predicate Describes(node: Node, ports: seq<Located>) {
    Names(AddressesOf(ports, node.nodeId), node.subnets)
  }

  method NodeOf(ports: seq<Located>, nodeId: string) returns (node: Node)
    ensures node.nodeId == nodeId && node.Valid() && Describes(node, ports)
  {
    var order, subnets := SubnetsOf(AddressesOf(ports, nodeId));
    node := Node(nodeId, order, subnets);
  }

  predicate OnEveryNode(nodes: seq<Node>, subnet: string) {
    forall i :: 0 <= i < |nodes| ==> subnet in nodes[i].subnets
  }

  predicate AddressFrom(nodes: seq<Node>, subnet: string, nodeId: string, address: string) {
    exists i :: 0 <= i < |nodes| && nodes[i].nodeId == nodeId && subnet in nodes[i].subnets
      && nodes[i].subnets[subnet] == address
  }

  /** An address for every node, each of its own. */
  predicate AddressesMatch(nodes: seq<Node>, shared: SharedSubnet) {
    && (forall i :: 0 <= i < |nodes| ==> nodes[i].nodeId in shared.addresses)
    && (forall nodeId :: nodeId in shared.addresses
          ==> AddressFrom(nodes, shared.subnet, nodeId, shared.addresses[nodeId]))
  }

  method AddressesOn(nodes: seq<Node>, subnet: string) returns (addresses: map<string, string>)
    requires OnEveryNode(nodes, subnet)
    ensures AddressesMatch(nodes, SharedSubnet(subnet, addresses))
  {
    addresses := map[];
    for n := 0 to |nodes|
      invariant forall i :: 0 <= i < n ==> nodes[i].nodeId in addresses
      invariant forall nodeId :: nodeId in addresses ==> AddressFrom(nodes, subnet, nodeId, addresses[nodeId])
    {
      assert AddressFrom(nodes, subnet, nodes[n].nodeId, nodes[n].subnets[subnet]);
      addresses := addresses[nodes[n].nodeId := nodes[n].subnets[subnet]];
    }
  }

  /** The entries are subnets of every node with their addresses, each subnet once. */
  predicate Entries(nodes: seq<Node>, shared: seq<SharedSubnet>) {
    && (forall i :: 0 <= i < |shared| ==> OnEveryNode(nodes, shared[i].subnet) && AddressesMatch(nodes, shared[i]))
    && (forall i, j :: 0 <= i < j < |shared| ==> shared[i].subnet != shared[j].subnet)
  }

  predicate Lists(shared: seq<SharedSubnet>, subnet: string) {
    exists i :: 0 <= i < |shared| && shared[i].subnet == subnet
  }

  lemma {:induction false} OneMoreEntry(nodes: seq<Node>, shared: seq<SharedSubnet>, entry: SharedSubnet)
    requires Entries(nodes, shared) && !Lists(shared, entry.subnet)
    requires OnEveryNode(nodes, entry.subnet) && AddressesMatch(nodes, entry)
    ensures Entries(nodes, shared + [entry])
    ensures forall subnet :: Lists(shared + [entry], subnet) <==> Lists(shared, subnet) || subnet == entry.subnet
  {
    forall subnet ensures Lists(shared + [entry], subnet) <==> Lists(shared, subnet) || subnet == entry.subnet {
      if Lists(shared, subnet) {
        var i :| 0 <= i < |shared| && shared[i].subnet == subnet;
        assert (shared + [entry])[i].subnet == subnet;
      }
      assert (shared + [entry])[|shared|] == entry;
    }
  }

  /** The subnets every node is on, each once, with an address of every node; without nodes there are none. */
  method SharedOf(nodes: seq<Node>) returns (shared: seq<SharedSubnet>)
    requires forall i :: 0 <= i < |nodes| ==> nodes[i].Valid()
    ensures Entries(nodes, shared)
    ensures forall subnet :: Lists(shared, subnet) <==> nodes != [] && OnEveryNode(nodes, subnet)
  {
    shared := [];
    if nodes == [] {
      return;
    }
    var order := nodes[0].order;
    for n := 0 to |order|
      invariant Entries(nodes, shared)
      invariant forall subnet :: Lists(shared, subnet) <==> subnet in order[..n] && OnEveryNode(nodes, subnet)
    {
      assert order[..n + 1] == order[..n] + [order[n]];
      if OnEveryNode(nodes, order[n]) {
        var addresses := AddressesOn(nodes, order[n]);
        OneMoreEntry(nodes, shared, SharedSubnet(order[n], addresses));
        shared := shared + [SharedSubnet(order[n], addresses)];
      }
    }
    assert order[..|order|] == order;
  }

  method SharedRdmaSubnets(ports: seq<Located>,
                           nodeIds: seq<string>) returns (nodes: seq<Node>, shared: seq<SharedSubnet>)
    ensures |nodes| == |nodeIds| && forall i :: 0 <= i < |nodes|
                                      ==> nodes[i].nodeId == nodeIds[i] && Describes(nodes[i], ports)
    ensures Entries(nodes, shared)
    ensures forall subnet :: Lists(shared, subnet) <==> nodes != [] && OnEveryNode(nodes, subnet)
  {
    nodes := [];
    for n := 0 to |nodeIds|
      invariant |nodes| == n
      invariant forall i :: 0 <= i < n
                  ==> nodes[i].nodeId == nodeIds[i] && nodes[i].Valid() && Describes(nodes[i], ports)
    {
      var node := NodeOf(ports, nodeIds[n]);
      nodes := nodes + [node];
    }
    shared := SharedOf(nodes);
  }

  // Names and addresses

  lemma {:induction false} ClearedStaysCleared(value: nat, size: nat)
    requires size > 0
    ensures Ipv4.ClearLow(value, size) <= value
        && Ipv4.ClearLow(Ipv4.ClearLow(value, size), size) == Ipv4.ClearLow(value, size)
  {
    if value >= size {
      ClearedStaysCleared(value - size, size);
    }
  }

  /** The reach comes from an address in CIDR notation. */
  ghost predicate FromCidr(reach: Reach) {
    exists cidr :: Ipv4.ParseCidr(cidr) == Some(Ipv4.Cidr(reach.endpoint.ipv4, reach.network, reach.prefix))
  }

  lemma {:induction false} PathsFromCidrs(path: Path, cidrs: seq<string>, reach: Reach)
    requires reach in PathAddresses(path, cidrs)
    ensures FromCidr(reach) && reach.endpoint.ipv4 in path.roceV2Ipv4
  {
    if reach in PathAddresses(path, cidrs[1..]) {
      PathsFromCidrs(path, cidrs[1..], reach);
    }
  }

  lemma {:induction false} AddressesFromCidrs(paths: seq<Path>, reach: Reach)
    requires reach in RdmaAddresses(paths)
    ensures FromCidr(reach)
  {
    if paths[0].carrier && reach in PathAddresses(paths[0], paths[0].ipv4) {
      PathsFromCidrs(paths[0], paths[0].ipv4, reach);
    } else {
      AddressesFromCidrs(paths[1..], reach);
    }
  }

  lemma {:induction false} NumberOfSigned(n: int)
    ensures Ipv4.ToNumber(Decimal.Print(n)) == Some(n) && Text.Free(Decimal.Print(n), '/')
  {
    var magnitude := if n < 0 then -n else n;
    var s := Decimal.PrintNat(magnitude);
    assert Decimal.IsDigit(s[0]) && Decimal.IsDigit(s[|s| - 1]);
    Text.TrimOfTrimmed(Decimal.Print(n));
    Decimal.ParseOfPrint(n);
    Ipv4.DigitsAreFree(magnitude, '/');
  }

  lemma {:induction false} NameParses(reach: Reach)
    requires FromCidr(reach)
    ensures reach.network < Ipv4.WORD && Ipv4.PrefixText(SubnetName(reach)) == Decimal.Print(reach.prefix)
    ensures Ipv4.ParseCidr(SubnetName(reach))
        == Some(Ipv4.Cidr(Ipv4.FormatIpv4(reach.network), reach.network, reach.prefix))
  {
    var cidr :| Ipv4.ParseCidr(cidr) == Some(Ipv4.Cidr(reach.endpoint.ipv4, reach.network, reach.prefix));
    Ipv4.ParsedNetwork(cidr);
    ClearedStaysCleared(Ipv4.ValueOf(cidr), Arithmetic.Pow2(Ipv4.HostBits(reach.prefix)));
    NumberOfSigned(reach.prefix);
    Ipv4.FormatParses(reach.network, Decimal.Print(reach.prefix));
    Ipv4.FormatSplits(reach.network);
    Text.SplitPrefix(Ipv4.FormatIpv4(reach.network), Decimal.Print(reach.prefix), '/');
    Text.SplitOfFree(Decimal.Print(reach.prefix), '/');
  }

  /** Two reaches name their subnet alike exactly when they share it. */
  lemma {:induction false} NamedAlikeIffShared(a: Reach, b: Reach)
    requires FromCidr(a) && FromCidr(b)
    ensures SubnetName(a) == SubnetName(b) <==> SameSubnet(a, b)
  {
    NameParses(a);
    NameParses(b);
  }

  /** An address lies in the subnet it is listed under. */
  lemma {:induction false} ListedAddressIsInSubnet(reach: Reach)
    requires FromCidr(reach)
    ensures Ipv4.InSubnet(reach.endpoint.ipv4, SubnetName(reach))
  {
    var cidr :| Ipv4.ParseCidr(cidr) == Some(Ipv4.Cidr(reach.endpoint.ipv4, reach.network, reach.prefix));
    NameParses(reach);
    Text.PartsAreFree(cidr, '/');
    assert reach.endpoint.ipv4 == Text.Split(cidr, '/')[0] && reach.endpoint.ipv4 in Text.Split(cidr, '/');
    NumberOfSigned(reach.prefix);
    Text.SplitPrefix(reach.endpoint.ipv4, Decimal.Print(reach.prefix), '/');
    Text.SplitOfFree(Decimal.Print(reach.prefix), '/');
  }

  lemma {:induction false} NodeAddressesFromCidrs(ports: seq<Located>, nodeId: string, reach: Reach)
    requires reach in AddressesOf(ports, nodeId)
    ensures FromCidr(reach)
  {
    if ports[0].nodeId == nodeId && reach in RdmaAddresses(ports[0].paths) {
      AddressesFromCidrs(ports[0].paths, reach);
    } else {
      NodeAddressesFromCidrs(ports[1..], nodeId, reach);
    }
  }

  lemma {:induction false} FirstIsReach(reaches: seq<Reach>, subnet: string) returns (reach: Reach)
    requires FirstOn(reaches, subnet).Some?
    ensures reach in reaches && SubnetName(reach) == subnet && FirstOn(reaches, subnet) == Some(reach.endpoint.ipv4)
  {
    if SubnetName(reaches[0]) == subnet {
      reach := reaches[0];
    } else {
      reach := FirstIsReach(reaches[1..], subnet);
    }
  }

  /** Every address listed for a node under a subnet lies in that subnet. */
  lemma {:induction false} SharedAddressIsInSubnet(ports: seq<Located>, nodeId: string, subnet: string)
    requires FirstOn(AddressesOf(ports, nodeId), subnet).Some?
    ensures Ipv4.InSubnet(FirstOn(AddressesOf(ports, nodeId), subnet).value, subnet)
  {
    var reach := FirstIsReach(AddressesOf(ports, nodeId), subnet);
    NodeAddressesFromCidrs(ports, nodeId, reach);
    ListedAddressIsInSubnet(reach);
  }
}
