/** Choosing one host for a request. What the cache and the random source answer is a parameter. */
module LoadBalancer {
  import opened Arithmetic
  import opened Options

  datatype Strategy = Random | RoundRobin | LeastConnections

  datatype Reason =
    | SingleCandidate
    | RandomPick
    | RoundRobinPick
    | LeastConnectionsPick
    | PrefixAffinityHit
    | RedisFallback

  /** tracked says that a connection was counted for the host and has to be given back. */
  datatype Selection = Selection(host: string, tracked: bool, reason: Reason)

  type Unit = x: real | 0.0 <= x < 1.0

  /** The answers during one selection, None for a cache error: the canary roll and the random pick,
      the round-robin counter, the connection counts (absent ones read as zero), and the hosts
      remembered for the prompt's prefixes, longest first. */
  datatype Answers = Answers(
    roll: Unit,
    pick: Unit,
    counter: Option<nat>,
    loads: Option<map<string, int>>,
    hints: Option<seq<string>>)

  const AFFINITY_MARGIN := 2

  function Load(loads: map<string, int>, host: string): int {
    if host in loads then loads[host] else 0
  }

  /** A host without a count is as free as one with none. */
  lemma {:induction false} UncountedIsIdle(loads: map<string, int>, host: string)
    ensures Load(loads[host := 0], host) == 0 && (host !in loads ==> Load(loads, host) == 0)
    ensures host in loads ==> Load(loads, host) == loads[host]
  {
  }

  /** The unit interval is shared out equally, and the number falls in the share of host i. */
  predicate IsShare(hosts: seq<string>, unit: Unit, i: nat) {
    i < |hosts| && i as real <= unit * |hosts| as real < (i + 1) as real
  }

  function RandomIndex(hosts: seq<string>, unit: Unit): (i: nat)
    requires hosts != []
    ensures IsShare(hosts, unit, i)
  {
    ScaledBelow(|hosts| as real, unit);
    (unit * |hosts| as real).Floor
  }

  lemma ScaledBelow(n: real, unit: Unit)
    requires n > 0.0
    ensures 0.0 <= unit * n < n
  {
  }

  function RandomHost(hosts: seq<string>, unit: Unit): (host: string)
    requires hosts != []
    ensures exists i: nat :: IsShare(hosts, unit, i) && host == hosts[i]
  {
    hosts[RandomIndex(hosts, unit)]
  }

  predicate IsFirstLeast(hosts: seq<string>, loads: map<string, int>, i: nat) {
    && i < |hosts|
    && (forall j :: 0 <= j < |hosts| ==> Load(loads, hosts[i]) <= Load(loads, hosts[j]))
    && (forall j :: 0 <= j < i ==> Load(loads, hosts[i]) < Load(loads, hosts[j]))
  }

  /** The hint may be followed: nobody is more than the margin less loaded. */
  predicate NearLeast(hosts: seq<string>, loads: map<string, int>, hint: string) {
    hint in hosts && forall h :: h in hosts ==> Load(loads, hint) <= Load(loads, h) + AFFINITY_MARGIN
  }

  ghost predicate LeastConnected(hosts: seq<string>, hint: Option<string>, loads: map<string, int>, s: Selection) {
    if hint.Some? && NearLeast(hosts, loads, hint.value) then s == Selection(hint.value, true, PrefixAffinityHit)
    else exists i: nat :: IsFirstLeast(hosts, loads, i) && s == Selection(hosts[i], true, LeastConnectionsPick)
  }

  method SelectLeastConnections(hosts: seq<string>, hint: Option<string>, loads: map<string,
                                int>) returns (s: Selection)
    requires hosts != []
    ensures LeastConnected(hosts, hint, loads, s)
  {
    var minIndex: nat := 0;
    var i := 0;
    while i < |hosts|
      invariant 0 <= i <= |hosts|
      invariant if i == 0 then minIndex == 0 else IsFirstLeast(hosts[..i], loads, minIndex)
    {
      if i == 0 || Load(loads, hosts[i]) < Load(loads, hosts[minIndex]) {
        minIndex := i;
      }
      assert hosts[..i + 1] == hosts[..i] + [hosts[i]];
      i := i + 1;
    }
    assert hosts[..i] == hosts;
    assert NearLeast(hosts, loads, hint.GetOr(""))
        <==> hint.GetOr("") in hosts && Load(loads, hint.GetOr("")) <= Load(loads, hosts[minIndex]) + AFFINITY_MARGIN;
    if hint.Some? && hint.value in hosts && Load(loads, hint.value) <= Load(loads, hosts[minIndex]) + AFFINITY_MARGIN {
      return Selection(hint.value, true, PrefixAffinityHit);
    }
    return Selection(hosts[minIndex], true, LeastConnectionsPick);
  }

  /** What the reason given for a pick says about the host. */
  ghost predicate Justified(strategy: Strategy, hosts: seq<string>, hint: Option<string>, a: Answers, s: Selection)
    requires hosts != []
  {
    match s.reason
    case SingleCandidate => s.host == hosts[0]
    case RoundRobinPick => strategy.RoundRobin? && a.counter.Some? && s.host == hosts[a.counter.value % |hosts|]
    case LeastConnectionsPick =>
      strategy.LeastConnections? && a.loads.Some? && LeastConnected(hosts, hint, a.loads.value, s)
    case PrefixAffinityHit =>
      && hint == Some(s.host)
      && if s.tracked then a.loads.Some? && NearLeast(hosts, a.loads.value, s.host) else strategy.Random?
    case RandomPick =>
      strategy.Random? && hint.None? && exists i: nat :: IsShare(hosts, a.pick, i) && s.host == hosts[i]
    case RedisFallback => exists i: nat :: IsShare(hosts, a.pick, i) && s.host == hosts[i]
  }

  predicate Single(hosts: seq<string>) { |hosts| == 1 && hosts[0] != "" }

  /** What each strategy promises: a lone host is taken as it is, a connection is tracked exactly when the
      connection counts were used, and without the counter or the counts it falls back to chance. */
  ghost predicate Picked(strategy: Strategy, hosts: seq<string>, hint: Option<string>, a: Answers, s: Selection)
    requires hosts != []
  {
    && (s.reason.SingleCandidate? <==> Single(hosts))
    && (s.tracked <==> !Single(hosts) && strategy.LeastConnections? && a.loads.Some?)
    && (s.reason.RedisFallback?
        <==> && !Single(hosts)
             && ((strategy.RoundRobin? && a.counter.None?) || (strategy.LeastConnections? && a.loads.None?)))
    && Justified(strategy, hosts, hint, a, s)
  }

  lemma {:induction false} ShareIsUnique(hosts: seq<string>, unit: Unit, i: nat, j: nat)
    requires IsShare(hosts, unit, i) && IsShare(hosts, unit, j)
    ensures i == j
  {
    assert (i as real) < (j + 1) as real && (j as real) < (i + 1) as real;
  }

  /** The strategy, the hint and the cache's answers leave no choice. */
  lemma {:induction false} PickIsDetermined(strategy: Strategy, hosts: seq<string>, hint: Option<string>, a: Answers,
                                            s: Selection, t: Selection)
    requires hosts != [] && Picked(strategy, hosts, hint, a, s) && Picked(strategy, hosts, hint, a, t)
    ensures s == t
  {
    assert s.tracked == t.tracked && (s.reason.SingleCandidate? <==> t.reason.SingleCandidate?);
    if s.reason.RedisFallback? || s.reason.RandomPick? {
      var i: nat :| IsShare(hosts, a.pick, i) && s.host == hosts[i];
      var j: nat :| IsShare(hosts, a.pick, j) && t.host == hosts[j];
      ShareIsUnique(hosts, a.pick, i, j);
    } else if s.reason.LeastConnectionsPick? {
      var i: nat :| IsFirstLeast(hosts, a.loads.value, i) && s.host == hosts[i];
      assert t.reason.LeastConnectionsPick?;
      var j: nat :| IsFirstLeast(hosts, a.loads.value, j) && t.host == hosts[j];
      assert i == j;
    }
  }

  method SelectByStrategy(strategy: Strategy, hosts: seq<string>, hint: Option<string>,
                          a: Answers) returns (s: Selection)
    requires hosts != []
    ensures Picked(strategy, hosts, hint, a, s)
  {
    if |hosts| == 1 && hosts[0] != "" {
      return Selection(hosts[0], false, SingleCandidate);
    }
    match strategy {
      case RoundRobin =>
        match a.counter {
          case Some(counter) => return Selection(hosts[counter % |hosts|], false, RoundRobinPick);
          case None => return Selection(RandomHost(hosts, a.pick), false, RedisFallback);
        }
      case LeastConnections =>
        match a.loads {
          case Some(loads) => s := SelectLeastConnections(hosts, hint, loads);
          case None => return Selection(RandomHost(hosts, a.pick), false, RedisFallback);
        }
      case Random =>
        match hint {
          case Some(host) => return Selection(host, false, PrefixAffinityHit);
          case None => return Selection(RandomHost(hosts, a.pick), false, RandomPick);
        }
    }
  }

  /** Hint i is a candidate, and no longer prefix remembers one. */
  predicate IsFirstHint(hints: seq<string>, hosts: seq<string>, i: nat) {
    && i < |hints| && hints[i] != "" && hints[i] in hosts
    && forall j :: 0 <= j < i ==> hints[j] == "" || hints[j] !in hosts
  }

  /** The first remembered host that is a candidate. */
  function FirstHint(hints: seq<string>, hosts: seq<string>): (hint: Option<string>)
    ensures hint.None? <==> forall h :: h in hints && h != "" ==> h !in hosts
    ensures hint.Some? ==> exists i: nat :: IsFirstHint(hints, hosts, i) && hint.value == hints[i]
  {
    if hints == [] then None
    else if hints[0] != "" && hints[0] in hosts then
      assert IsFirstHint(hints, hosts, 0);
      Some(hints[0])
    else
      assert forall h :: h in hints <==> h == hints[0] || h in hints[1..];
      assert forall i: nat :: IsFirstHint(hints[1..], hosts, i) ==> IsFirstHint(hints, hosts, i + 1);
      FirstHint(hints[1..], hosts)
  }

  function HintOf(a: Answers, hosts: seq<string>): Option<string> {
    match a.hints
    case None => None
    case Some(hints) => FirstHint(hints, hosts)
  }

  /** Which role serves: the canary roll, unless that role has no host left and the other has. */
  function ChooseFinalModel(hosts: seq<string>, earlyHosts: seq<string>, hasEarly: bool, progress: real,
                            roll: Unit): (useFinal: bool)
    requires !hasEarly ==> earlyHosts == []
    ensures (if useFinal then hosts else earlyHosts) == [] ==> hosts == earlyHosts == []
    ensures hosts != [] && earlyHosts != [] ==> (useFinal <==> roll * 100.0 < progress)
  {
    var rolledFinal := !hasEarly || roll * 100.0 < progress;
    var rolled, other := if rolledFinal then hosts else earlyHosts, if rolledFinal then earlyHosts else hosts;
    if hasEarly && rolled == [] && other != [] then !rolledFinal else rolledFinal
  }

  datatype Pick = Pick(useFinal: bool, selection: Selection)

  /** The pick is what the roll, the hint and the strategy say about these candidates. */
  ghost predicate RightPick(strategy: Strategy, hosts: seq<string>, earlyHosts: seq<string>, hasEarly: bool,
                            progress: real, a: Answers, p: Pick)
    requires !hasEarly ==> earlyHosts == []
  {
    var target := if p.useFinal then hosts else earlyHosts;
    && p.useFinal == ChooseFinalModel(hosts, earlyHosts, hasEarly, progress, a.roll)
    && target != []
    && Picked(strategy, target, HintOf(a, target), a, p.selection)
  }

  method SelectHost(strategy: Strategy, hosts: seq<string>, earlyHosts: seq<string>, hasEarly: bool, progress: real,
                    a: Answers)
    returns (r: Option<Pick>)
    requires !hasEarly ==> earlyHosts == []
    ensures r.None? <==> hosts == earlyHosts == []
    ensures r.Some? ==> RightPick(strategy, hosts, earlyHosts, hasEarly, progress, a, r.value)
  {
    var useFinal := ChooseFinalModel(hosts, earlyHosts, hasEarly, progress, a.roll);
    var target := if useFinal then hosts else earlyHosts;
    if target == [] {
      return None;
    }
    var selection := SelectByStrategy(strategy, target, HintOf(a, target), a);
    return Some(Pick(useFinal, selection));
  }

  /** Whatever the strategy and the cache say, the host picked is a candidate of the role picked; only
      the least-connections strategy tracks, and then no candidate has less than the margin under it. */
  lemma PickIsCandidate(strategy: Strategy, hosts: seq<string>, earlyHosts: seq<string>, hasEarly: bool,
                        progress: real, a: Answers, p: Pick)
    requires !hasEarly ==> earlyHosts == []
    requires RightPick(strategy, hosts, earlyHosts, hasEarly, progress, a, p)
    ensures p.selection.host in (if p.useFinal then hosts else earlyHosts)
    ensures p.selection.tracked ==> strategy.LeastConnections? && a.loads.Some?
    ensures p.selection.tracked ==> forall h :: h in (if p.useFinal then hosts else earlyHosts)
                                      ==> Load(a.loads.value, p.selection.host) <= Load(a.loads.value, h) + 2
  {
    var target := if p.useFinal then hosts else earlyHosts;
    var hint := HintOf(a, target);
    if strategy.LeastConnections? && a.loads.Some? && !(|target| == 1 && target[0] != "") {
      if !(hint.Some? && NearLeast(target, a.loads.value, hint.value)) {
        var i: nat :| IsFirstLeast(target, a.loads.value, i)
          && p.selection == Selection(target[i], true, LeastConnectionsPick);
        forall h | h in target ensures Load(a.loads.value, target[i]) <= Load(a.loads.value, h) + AFFINITY_MARGIN {
          var j :| 0 <= j < |target| && target[j] == h;
        }
      }
    }
  }

  lemma SameTurn(t: int, u: int, n: int, x: int, y: int)
    requires n > 0 && x == t * n && y == u * n && -n < x - y < n
    ensures t == u
  {
    WholeMultiple(t - u, n);
    assert (t - u) * n == x - y;
  }

  lemma Remainder(k: nat, t: nat, n: nat, i: nat)
    requires i < n && k - i == t * n
    ensures k % n == i
  {
    var u := k / n;
    assert k == n * u + k % n;
    assert n * u == u * n;
    SameTurn(u, t, n, k - k % n, k - i);
  }

  lemma SameIndexSameCounter(k: nat, other: nat, n: nat)
    requires n > 0 && k % n == other % n && -(n as int) < k - other < n
    ensures k == other
  {
    var t, u := k / n, other / n;
    assert k == n * t + k % n && other == n * u + other % n;
    assert n * t == t * n && n * u == u * n;
    SameTurn(t, u, n, k - k % n, other - other % n);
  }

  lemma CountersReachEachIndexOnce(n: nat, from: nat, i: nat) returns (k: nat)
    requires i < n
    ensures from <= k < from + n && k % n == i
    ensures forall other: nat :: from <= other < from + n && other % n == i ==> other == k
  {
    var q, r := from / n, from % n;
    assert from == n * q + r;
    if r <= i {
      k := from + (i - r);
      assert n * q == q * n;
      Remainder(k, q, n, i);
    } else {
      k := from + (n - r + i);
      assert n * q + n == (q + 1) * n;
      Remainder(k, q + 1, n, i);
    }
    forall other: nat | from <= other < from + n && other % n == i ensures other == k {
      SameIndexSameCounter(k, other, n);
    }
  }

  /** Of any run of consecutive counter values as long as the host list, exactly one makes the round-robin strategy
      pick a given host, whatever hints there are. */
  lemma {:induction false} RoundRobinReachesEachOnce(hosts: seq<string>, hints: nat -> Option<string>,
                                                     answers: nat -> Answers, picks: nat -> Selection, from: nat,
                                                     i: nat)
    returns (k: nat)
    requires i < |hosts| && forall a, b :: 0 <= a < b < |hosts| ==> hosts[a] != hosts[b]
    requires forall c: nat :: from <= c < from + |hosts| ==>
      answers(c).counter == Some(c) && Picked(RoundRobin, hosts, hints(c), answers(c), picks(c))
    ensures from <= k < from + |hosts| && picks(k).host == hosts[i]
    ensures forall c: nat :: from <= c < from + |hosts| && picks(c).host == hosts[i] ==> c == k
  {
    k := CountersReachEachIndexOnce(|hosts|, from, i);
    forall c: nat | from <= c < from + |hosts| ensures picks(c).host == hosts[c % |hosts|] {
      assert answers(c).counter == Some(c) && Picked(RoundRobin, hosts, hints(c), answers(c), picks(c));
    }
  }
}
