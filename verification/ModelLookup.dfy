/** Finding a host that takes a request: selection, admission and the next host while one is full. */
module ModelLookup {
  import opened Options
  import LB = LoadBalancer
  import Admission

  datatype Location = Location(installationId: string, maxNumSeqs: Option<nat>)

  datatype Row = Row(host: string, location: Location)

  datatype Sources = Sources(hosts: seq<string>, byHost: map<string, Location>) {
    predicate Valid() {
      && (forall h :: h in hosts ==> h in byHost) && (forall h :: h in byHost ==> h in hosts)
      && (forall i, j :: 0 <= i < j < |hosts| ==> hosts[i] != hosts[j])
    }
  }

  const NO_SOURCES := Sources([], map[])

  /** Row i is the last of the first n rows for the host. */
  predicate IsLastRow(rows: seq<Row>, n: nat, host: string, i: nat) {
    i < n <= |rows| && rows[i].host == host && forall j :: i < j < n ==> rows[j].host != host
  }

  /** For each host its last row among the first n. */
  predicate HoldsLastRows(rows: seq<Row>, n: nat, byHost: map<string, Location>, lasts: map<string, nat>) {
    && n <= |rows| && lasts.Keys == byHost.Keys
    && (forall i :: 0 <= i < n ==> rows[i].host in byHost)
    && (forall h :: h in lasts ==> IsLastRow(rows, n, h, lasts[h]) && byHost[h] == rows[lasts[h]].location)
  }

  predicate IsFirstRow(rows: seq<Row>, host: string, i: nat) {
    i < |rows| && rows[i].host == host && forall j :: 0 <= j < i ==> rows[j].host != host
  }

  /** The hosts stand in the order of their first rows, all among the first n. */
  predicate InFirstOrder(rows: seq<Row>, n: nat, hosts: seq<string>, firsts: seq<nat>) {
    && |firsts| == |hosts|
    && (forall k :: 0 <= k < |hosts| ==> firsts[k] < n && IsFirstRow(rows, hosts[k], firsts[k]))
    && (forall j, k :: 0 <= j < k < |firsts| ==> firsts[j] < firsts[k])
  }

  lemma {:induction false} OneMoreLastRow(rows: seq<Row>, n: nat, byHost: map<string, Location>,
                                          lasts: map<string, nat>)
    requires n < |rows| && HoldsLastRows(rows, n, byHost, lasts)
    ensures HoldsLastRows(rows, n + 1, byHost[rows[n].host := rows[n].location], lasts[rows[n].host := n])
  {
  }

  lemma {:induction false} OneMoreFirstRow(rows: seq<Row>, n: nat, hosts: seq<string>, firsts: seq<nat>)
    requires n < |rows| && InFirstOrder(rows, n, hosts, firsts)
    ensures InFirstOrder(rows, n + 1, hosts, firsts)
    ensures IsFirstRow(rows, rows[n].host, n) ==> InFirstOrder(rows, n + 1, hosts + [rows[n].host], firsts + [n])
  {
  }

  /** Each host once, with its last row, in the order of the first rows. */
  method CollectSources(rows: seq<Row>) returns (s: Sources, ghost firsts: seq<nat>, ghost lasts: map<string, nat>)
    ensures s.Valid()
    ensures HoldsLastRows(rows, |rows|, s.byHost, lasts) && InFirstOrder(rows, |rows|, s.hosts, firsts)
  {
    s, firsts, lasts := NO_SOURCES, [], map[];
    for n := 0 to |rows|
      invariant s.Valid()
      invariant HoldsLastRows(rows, n, s.byHost, lasts) && InFirstOrder(rows, n, s.hosts, firsts)
    {
      var row := rows[n];
      OneMoreLastRow(rows, n, s.byHost, lasts);
      OneMoreFirstRow(rows, n, s.hosts, firsts);
      lasts := lasts[row.host := n];
      firsts := if row.host in s.byHost then firsts else firsts + [n];
      s := Sources(if row.host in s.byHost then s.hosts else s.hosts + [row.host], s.byHost[row.host := row.location]);
    }
  }

  /** progress is the canary share of the final model, in percent. */
  datatype Access = Access(primary: string, early: Option<string>, progress: real)

  /** What one turn of the loop meets; admission is the cache's answer if it is asked. */
  datatype Round = Round(strategy: LB.Strategy, answers: LB.Answers, admission: Admission.CacheAnswer)

  /** What calling the release gives back. */
  datatype Release = Release(connection: Option<string>, admission: Option<string>)

  datatype Outcome =
    | Unknown
    | Unavailable
    | Busy
    | CatalogFailed
    | Found(host: string, location: Location, specifier: string, release: Release)

  function Once(o: Option<string>): multiset<string> {
    match o
    case Some(x) => multiset{x}
    case None => multiset{}
  }

  function Without(hosts: seq<string>, full: set<string>): seq<string> {
    if hosts == [] then []
    else if hosts[0] in full then Without(hosts[1..], full)
    else [hosts[0]] + Without(hosts[1..], full)
  }

  lemma {:induction false} WithoutLeaves(hosts: seq<string>, full: set<string>, host: string)
    ensures host in Without(hosts, full) <==> host in hosts && host !in full
  {
    if hosts != [] {
      assert host in hosts <==> host == hosts[0] || host in hosts[1..];
      WithoutLeaves(hosts[1..], full, host);
    }
  }

  /** The installation a host stands for; the final model's comes first. */
  function LocationOf(finals: Sources, earlies: Sources, host: string): Option<Location> {
    if host in finals.byHost then Some(finals.byHost[host])
    else if host in earlies.byHost then Some(earlies.byHost[host])
    else None
  }

  function Candidates(finals: Sources, earlies: Sources): set<string> {
    finals.byHost.Keys + earlies.byHost.Keys
  }

  function Tried(picks: seq<LB.Pick>): set<string> {
    set p <- picks :: p.selection.host
  }

  /** The pick is right among the hosts not found full. */
  ghost predicate PicksNext(access: Access, finals: Sources, earlies: Sources, round: Round, full: set<string>,
                            pick: LB.Pick)
    requires access.early.None? ==> earlies.hosts == []
  {
    LB.RightPick(round.strategy, Without(finals.hosts, full), Without(earlies.hosts, full), access.early.Some?,
                 access.progress, round.answers, pick)
  }

  /** The installation of the picked host is limited and the cache said it is full. */
  predicate TurnedAway(finals: Sources, earlies: Sources, round: Round, pick: LB.Pick) {
    var location := LocationOf(finals, earlies, pick.selection.host);
    location.Some? && location.value.maxNumSeqs.Some? && round.admission.Refused?
  }

  /** Each turn picked right among the hosts no earlier turn had found full, and was turned away. */
  ghost predicate AllTurnedAway(access: Access, finals: Sources, earlies: Sources, rounds: nat -> Round,
                                picks: seq<LB.Pick>)
    requires access.early.None? ==> earlies.hosts == []
  {
    picks == [] ||
    var before, last := picks[..|picks| - 1], picks[|picks| - 1];
    && AllTurnedAway(access, finals, earlies, rounds, before)
    && PicksNext(access, finals, earlies, rounds(|before|), Tried(before), last)
    && TurnedAway(finals, earlies, rounds(|before|), last)
  }

  /** The releases of one lookup that are not called yet: connections tracked and admissions counted. */
  datatype Ledger = Ledger(connections: multiset<string>, admissions: multiset<string>)

  const NOTHING := Ledger(multiset{}, multiset{})

  function Take(l: Ledger, r: Release): Ledger {
    Ledger(l.connections + Once(r.connection), l.admissions + Once(r.admission))
  }

  function GiveBack(l: Ledger, r: Release): Ledger {
    Ledger(l.connections - Once(r.connection), l.admissions - Once(r.admission))
  }

  /** What the answer says. full holds the turns that were turned away, last the pick that was not, and
      held the releases of this lookup that are still outstanding. */
  ghost predicate Answered(access: Access, finals: Sources, earlies: Sources, rounds: nat -> Round,
                           catalogAnswers: bool, outcome: Outcome, full: seq<LB.Pick>,
                           last: Option<LB.Pick>, held: Ledger)
    requires access.early.None? ==> earlies.hosts == []
  {
    var round := rounds(|full|);
    && AllTurnedAway(access, finals, earlies, rounds, full)
    && (last.Some?
        ==> && PicksNext(access, finals, earlies, round, Tried(full), last.value)
            && !TurnedAway(finals, earlies, round, last.value))
    && match outcome
       case Unknown => false
       case Unavailable => Candidates(finals, earlies) == {} && last.None? && held == NOTHING
       case Busy => Tried(full) == Candidates(finals, earlies) != {} && last.None? && held == NOTHING
       case CatalogFailed => !catalogAnswers && last.Some? && held == NOTHING
       case Found(_, _, _, release) =>
         catalogAnswers && last.Some? && FoundRight(access, finals, earlies, last.value, round.admission, outcome)
           && held == Take(NOTHING, release)
  }

  /** The host is the one picked last; its release gives back the connection if one was tracked and the
      admission if the installation is limited and the cache counted it. */
  predicate FoundRight(access: Access, finals: Sources, earlies: Sources, last: LB.Pick,
                       admission: Admission.CacheAnswer, found: Outcome)
    requires found.Found?
  {
    && found.host == last.selection.host
    && LocationOf(finals, earlies, found.host) == Some(found.location)
    && Some(found.specifier) == (if last.useFinal then Some(access.primary) else access.early)
    && found.release.connection == (if last.selection.tracked then Some(found.host) else None)
    && found.release.admission
       == (if found.location.maxNumSeqs.Some? && admission.Granted? then Some(found.location.installationId) else None)
  }

  lemma NextIsCandidate(access: Access, finals: Sources, earlies: Sources, round: Round, full: set<string>,
                        pick: LB.Pick)
    requires (access.early.None? ==> earlies.hosts == []) && finals.Valid() && earlies.Valid()
    requires PicksNext(access, finals, earlies, round, full, pick)
    ensures pick.selection.host in Candidates(finals, earlies) - full
    ensures pick.selection.host in (if pick.useFinal then finals else earlies).byHost
    ensures LocationOf(finals, earlies, pick.selection.host).Some?
  {
    LB.PickIsCandidate(round.strategy, Without(finals.hosts, full), Without(earlies.hosts, full), access.early.Some?,
                       access.progress, round.answers, pick);
    WithoutLeaves(finals.hosts, full, pick.selection.host);
    WithoutLeaves(earlies.hosts, full, pick.selection.host);
  }

  lemma TriedGrows(picks: seq<LB.Pick>, pick: LB.Pick)
    ensures Tried(picks + [pick]) == Tried(picks) + {pick.selection.host}
  {
    forall h | h in Tried(picks) + {pick.selection.host} ensures h in Tried(picks + [pick]) {
      var p :| (p in picks || p == pick) && p.selection.host == h;
      assert p in picks + [pick];
    }
  }

  lemma CardinalityIsMonotone(a: set<string>, b: set<string>)
    requires a <= b
    ensures |a| <= |b|
  {
    assert b == a + (b - a);
  }

  lemma OneMoreTried(picks: seq<LB.Pick>, all: set<string>)
    requires picks != []
    requires var before := picks[..|picks| - 1];
      Tried(before) <= all && |before| == |Tried(before)| && picks[|picks| - 1].selection.host in all - Tried(before)
    ensures Tried(picks) <= all && |picks| == |Tried(picks)| <= |all|
  {
    var before, last := picks[..|picks| - 1], picks[|picks| - 1];
    assert picks == before + [last];
    TriedGrows(before, last);
    CardinalityIsMonotone(Tried(picks), all);
  }

  /** No host is tried twice, so there are no more turns than hosts. */
  lemma {:induction false} TurnsAreDistinct(access: Access, finals: Sources, earlies: Sources, rounds: nat -> Round,
                                            picks: seq<LB.Pick>)
    requires (access.early.None? ==> earlies.hosts == []) && finals.Valid() && earlies.Valid()
    requires AllTurnedAway(access, finals, earlies, rounds, picks)
    ensures Tried(picks) <= Candidates(finals, earlies)
    ensures |picks| == |Tried(picks)| <= |Candidates(finals, earlies)|
  {
    if picks != [] {
      var before, last := picks[..|picks| - 1], picks[|picks| - 1];
      TurnsAreDistinct(access, finals, earlies, rounds, before);
      NextIsCandidate(access, finals, earlies, rounds(|before|), Tried(before), last);
      OneMoreTried(picks, Candidates(finals, earlies));
    }
  }

  lemma {:induction false} OneMoreTurnedAway(access: Access, finals: Sources, earlies: Sources, rounds: nat -> Round,
                                             picks: seq<LB.Pick>, pick: LB.Pick)
    requires (access.early.None? ==> earlies.hosts == []) && finals.Valid() && earlies.Valid()
    requires AllTurnedAway(access, finals, earlies, rounds, picks)
    requires PicksNext(access, finals, earlies, rounds(|picks|), Tried(picks), pick)
        && TurnedAway(finals, earlies, rounds(|picks|), pick)
    ensures AllTurnedAway(access, finals, earlies, rounds, picks + [pick])
    ensures |picks| < |Candidates(finals, earlies)|
  {
    assert (picks + [pick])[..|picks|] == picks;
    TurnsAreDistinct(access, finals, earlies, rounds, picks + [pick]);
  }

  /** Calling a release gives back exactly what it stands for. */
  lemma ReleaseIsExact(l: Ledger, r: Release)
    ensures GiveBack(Take(l, r), r) == l
  {
  }

  lemma ReleasesJoin(l: Ledger, r: Release, admission: Option<string>)
    requires r.admission.None?
    ensures Take(Take(l, r), Release(None, admission)) == Take(l, r.(admission := admission))
  {
  }

  lemma {:induction false} NobodyLeft(access: Access, finals: Sources, earlies: Sources, rounds: nat -> Round,
                                      picks: seq<LB.Pick>)
    requires (access.early.None? ==> earlies.hosts == []) && finals.Valid() && earlies.Valid()
    requires AllTurnedAway(access, finals, earlies, rounds, picks)
    requires Without(finals.hosts, Tried(picks)) == [] && Without(earlies.hosts, Tried(picks)) == []
    ensures Tried(picks) == Candidates(finals, earlies)
  {
    TurnsAreDistinct(access, finals, earlies, rounds, picks);
    forall h | h in Candidates(finals, earlies) ensures h in Tried(picks) {
      assert h in finals.hosts || h in earlies.hosts;
      WithoutLeaves(finals.hosts, Tried(picks), h);
      WithoutLeaves(earlies.hosts, Tried(picks), h);
    }
  }

  lemma {:induction false} NobodyAnswers(access: Access, finals: Sources, earlies: Sources, rounds: nat -> Round,
                                         catalogAnswers: bool, picks: seq<LB.Pick>)
    requires (access.early.None? ==> earlies.hosts == [])
    requires AllTurnedAway(access, finals, earlies, rounds, picks) && Tried(picks) == Candidates(finals, earlies)
    ensures var outcome := if picks != [] then Busy else Unavailable;
      Answered(access, finals, earlies, rounds, catalogAnswers, outcome, picks, None, NOTHING)
  {
    assert picks == [] || picks[0].selection.host in Tried(picks);
  }

  /** The release of an admission, which holds nothing up when the installation is unlimited or the cache failed. */
  function Admit(location: Location, answer: Admission.CacheAnswer): (release: Option<Option<string>>)
    ensures release.None? <==> location.maxNumSeqs.Some? && answer.Refused?
    ensures release == Some(Some(location.installationId)) <==> location.maxNumSeqs.Some? && answer.Granted?
  {
    if location.maxNumSeqs.None? then Some(None)
    else match answer
      case Granted => Some(Some(location.installationId))
      case Refused => None
      case Failed => Some(None)
  }

  /** What a pick that is not turned away answers. */
  function FoundAnswer(access: Access, pick: LB.Pick, location: Location, admission: Option<string>): Outcome {
    var host := pick.selection.host;
    Found(host, location, if pick.useFinal then access.primary else access.early.GetOr(access.primary),
          Release(if pick.selection.tracked then Some(host) else None, admission))
  }

  /** The lookup ends with a pick that was not turned away. */
  lemma {:induction false} Settled(access: Access, finals: Sources, earlies: Sources, rounds: nat -> Round,
                                   full: seq<LB.Pick>, last: LB.Pick, location: Location, admission: Option<string>)
    requires (access.early.None? ==> earlies.hosts == []) && finals.Valid() && earlies.Valid()
    requires AllTurnedAway(access, finals, earlies, rounds, full)
    requires PicksNext(access, finals, earlies, rounds(|full|), Tried(full), last)
    requires LocationOf(finals, earlies, last.selection.host) == Some(location)
    requires Admit(location, rounds(|full|).admission) == Some(admission)
    ensures var found := FoundAnswer(access, last, location, admission);
      && Answered(access, finals, earlies, rounds, true, found, full, Some(last), Take(NOTHING, found.release))
      && Answered(access, finals, earlies, rounds, false, CatalogFailed, full, Some(last), NOTHING)
  {
    NextIsCandidate(access, finals, earlies, rounds(|full|), Tried(full), last);
  }

  method GetModelInfo(access: Option<Access>, finals: Sources, listed: Sources, rounds: nat -> Round,
                      catalogAnswers: bool)
    returns (outcome: Outcome, full: seq<LB.Pick>, last: Option<LB.Pick>, held: Ledger)
    requires finals.Valid() && listed.Valid()
    ensures outcome.Unknown? <==> access.None?
    ensures access.None? ==> held == NOTHING
    ensures access.Some? ==> Answered(access.value, finals, if access.value.early.Some? then listed else NO_SOURCES,
                                      rounds, catalogAnswers, outcome, full, last, held)
  {
    if access.None? {
      return Unknown, [], None, NOTHING;
    }
    var earlies := if access.value.early.Some? then listed else NO_SOURCES;
    outcome, full, last, held := SelectAndAdmit(access.value, finals, earlies, rounds, catalogAnswers);
  }

  method SelectAndAdmit(access: Access, finals: Sources, earlies: Sources, rounds: nat -> Round, catalogAnswers: bool)
    returns (outcome: Outcome, full: seq<LB.Pick>, last: Option<LB.Pick>, held: Ledger)
    requires (access.early.None? ==> earlies.hosts == []) && finals.Valid() && earlies.Valid()
    ensures Answered(access, finals, earlies, rounds, catalogAnswers, outcome, full, last, held)
  {
    full, last, held := [], None, NOTHING;
    while true
      invariant last.None? && held == NOTHING
      invariant AllTurnedAway(access, finals, earlies, rounds, full)
      decreases |Candidates(finals, earlies)| - |full|
    {
      var round := rounds(|full|);
      var hosts, earlyHosts := Without(finals.hosts, Tried(full)), Without(earlies.hosts, Tried(full));
      var result := LB.SelectHost(round.strategy, hosts, earlyHosts, access.early.Some?, access.progress,
                                  round.answers);
      if result.None? {
        NobodyLeft(access, finals, earlies, rounds, full);
        NobodyAnswers(access, finals, earlies, rounds, catalogAnswers, full);
        return if full != [] then Busy else Unavailable, full, None, NOTHING;
      }
      var pick := result.value;
      var host := pick.selection.host;
      NextIsCandidate(access, finals, earlies, round, Tried(full), pick);
      var release := Release(if pick.selection.tracked then Some(host) else None, None);
      held := Take(held, release);
      ReleaseIsExact(NOTHING, release);
      var location := LocationOf(finals, earlies, host);
      if location.None? {
        held := GiveBack(held, release);
        return Unavailable, full, last, held;
      }
      var releaseAdmission := Admit(location.value, round.admission);
      if releaseAdmission.Some? {
        Settled(access, finals, earlies, rounds, full, pick, location.value, releaseAdmission.value);
        ReleasesJoin(NOTHING, release, releaseAdmission.value);
        held := Take(held, Release(None, releaseAdmission.value));
        outcome := FoundAnswer(access, pick, location.value, releaseAdmission.value);
        if !catalogAnswers {
          ReleaseIsExact(NOTHING, outcome.release);
          return CatalogFailed, full, result, GiveBack(held, outcome.release);
        }
        return outcome, full, result, held;
      }
      held := GiveBack(held, release);
      OneMoreTurnedAway(access, finals, earlies, rounds, full, pick);
      full := full + [pick];
    }
  }

  lemma {:induction false} LocationServesPickedModelIff(finals: Sources, earlies: Sources, pick: LB.Pick)
    requires pick.selection.host in (if pick.useFinal then finals else earlies).byHost
    ensures var host := pick.selection.host;
      LocationOf(finals, earlies, host) == Some((if pick.useFinal then finals else earlies).byHost[host])
      <==> pick.useFinal || host !in finals.byHost || finals.byHost[host] == earlies.byHost[host]
  {
  }

  /** What a found answer forwards to: the model named is that of the role picked, and the location belongs to
      it, except on a host that serves both models at different locations when the early one was picked. */
  lemma {:induction false} FoundServesModelIff(access: Access, finals: Sources, earlies: Sources,
                                               rounds: nat -> Round, catalogAnswers: bool, found: Outcome,
                                               full: seq<LB.Pick>, last: LB.Pick, held: Ledger)
    requires (access.early.None? ==> earlies.hosts == []) && finals.Valid() && earlies.Valid() && found.Found?
    requires Answered(access, finals, earlies, rounds, catalogAnswers, found, full, Some(last), held)
    ensures Some(found.specifier) == if last.useFinal then Some(access.primary) else access.early
    ensures var model := if last.useFinal then finals else earlies;
      && found.host in model.byHost
      && (found.location == model.byHost[found.host]
          <==> last.useFinal || found.host !in finals.byHost || finals.byHost[found.host] == earlies.byHost[found.host])
  {
    NextIsCandidate(access, finals, earlies, rounds(|full|), Tried(full), last);
    LocationServesPickedModelIff(finals, earlies, last);
  }

  /** One host at different locations in both sources, and the early model rolled: its name is forwarded to
      the final model's installation. */
  lemma {:induction false} FoundCanNameTheOtherModel(access: Access, finals: Sources, earlies: Sources,
                                                     rounds: nat -> Round)
    requires access == Access("final", Some("early"), 0.0)
    requires finals == Sources(["node:1"], map["node:1" := Location("installation of final", None)])
    requires earlies == Sources(["node:1"], map["node:1" := Location("installation of early", None)])
    requires rounds(0) == Round(LB.Random, LB.Answers(0.0, 0.0, None, None, None), Admission.Granted)
    ensures Answered(access, finals, earlies, rounds, true,
                     Found("node:1", Location("installation of final", None), "early", Release(None, None)),
                     [], Some(LB.Pick(false, LB.Selection("node:1", false, LB.SingleCandidate))), NOTHING)
  {
    assert finals.hosts[1..] == [] && Tried([]) == {};
    assert Without(finals.hosts, {}) == ["node:1"];
    assert !TurnedAway(finals, earlies, rounds(0), LB.Pick(false, LB.Selection("node:1", false, LB.SingleCandidate)));
  }
}
