/** The gateway's routing cache, with queries, changes, notifications and invalidations in any order. */
module RoutingCache {
  // Only a query that no invalidation overtook may store its result.

  import opened Arithmetic
  import opened Options

  /** What a query returned. asOf is the version of the database it saw: the cache never looks at it,
      the laws do. */
  datatype Sources = Sources(hosts: seq<string>, asOf: nat)

  datatype Entry = Entry(data: Sources, expiresAt: int)

  type Entries = map<string, Entry>

  class ModelSources {
    var cache: Entries
    var generation: nat

    constructor ()
      ensures cache == map[] && generation == 0
    {
      cache, generation := map[], 0;
    }

    method Invalidate()
      modifies this
      ensures generation == old(generation) + 1 && cache == map[]
    {
      generation := generation + 1;
      cache := map[];
    }

    /** A hit, or the generation the query has to bring back. */
    method Begin(key: string, now: int) returns (hit: Option<Sources>, generationAtQuery: nat)
      ensures hit == Lookup(cache, key, now) && generationAtQuery == generation
    {
      generationAtQuery := generation;
      if key in cache && cache[key].expiresAt > now {
        return Some(cache[key].data), generation;
      }
      return None, generation;
    }

    method End(key: string, begunAt: int, generationAtQuery: nat, result: Sources, ttlMs: int)
      modifies this
      ensures generation == old(generation)
      ensures cache == Remember(old(cache), generation, key, begunAt, generationAtQuery, result, ttlMs)
    {
      if generationAtQuery == generation {
        cache := cache[key := Entry(result, begunAt + ttlMs)];
      }
    }
  }

  function Lookup(cache: Entries, key: string, now: int): Option<Sources> {
    if key in cache && cache[key].expiresAt > now then Some(cache[key].data) else None
  }

  function Remember(cache: Entries, generation: nat, key: string, begunAt: int, generationAtQuery: nat,
                    result: Sources, ttlMs: int): Entries {
    if generationAtQuery == generation then cache[key := Entry(result, begunAt + ttlMs)] else cache
  }

  // Runs. A query misses, reads the database at some moment, and comes back at some later moment.

  datatype Query = Query(key: string, begunAt: int, generationAtQuery: nat, result: Option<Sources>)

  /** version counts database changes; delivered is the latest change whose notification has arrived. */
  datatype System = System(cache: Entries, generation: nat, queries: map<nat, Query>, version: nat, delivered: nat)

  const FRESH := System(map[], 0, map[], 0, 0)

  datatype Event =
    | Changed
    | Notified(version: nat)
    | Begins(query: nat, key: string, now: int)
    | ReadsDatabase(query: nat, hosts: seq<string>)
    | Ends(query: nat, ttlMs: int)

  predicate Enabled(s: System, event: Event) {
    match event
    case Changed => true
    // Notifications follow their change; none is delivered before it, any number may be outstanding.
    case Notified(v) => v <= s.version
    case Begins(q, key, now) => q !in s.queries && Lookup(s.cache, key, now).None?
    case ReadsDatabase(q, _) => q in s.queries && s.queries[q].result.None?
    case Ends(q, _) => q in s.queries && s.queries[q].result.Some?
  }

  function Step(s: System, event: Event): System
    requires Enabled(s, event)
  {
    match event
    case Changed => s.(version := s.version + 1)
    case Notified(v) => s.(cache := map[], generation := s.generation + 1, delivered := Max(s.delivered, v))
    case Begins(q, key, now) => s.(queries := s.queries[q := Query(key, now, s.generation, None)])
    case ReadsDatabase(q, hosts) =>
      s.(queries := s.queries[q := s.queries[q].(result := Some(Sources(hosts, s.version)))])
    case Ends(q, ttlMs) =>
      var query := s.queries[q];
      s.(cache := Remember(s.cache, s.generation, query.key, query.begunAt, query.generationAtQuery,
                           query.result.value, ttlMs),
         queries := s.queries - {q})
  }

  predicate IsRun(events: seq<Event>)
    decreases |events|, 0
  {
    events == [] || (IsRun(events[..|events| - 1]) && Enabled(After(events[..|events| - 1]), events[|events| - 1]))
  }

  function After(events: seq<Event>): System
    requires IsRun(events)
    decreases |events|, 1
  {
    if events == [] then FRESH else Step(After(events[..|events| - 1]), events[|events| - 1])
  }

  /** Whatever could still be served or stored saw every change that has been notified. */
  predicate Inv(s: System) {
    && s.delivered <= s.version
    && (forall key :: key in s.cache ==> s.cache[key].data.asOf >= s.delivered)
    && (forall q :: q in s.queries ==> s.queries[q].generationAtQuery <= s.generation)
    && (forall q :: q in s.queries && s.queries[q].generationAtQuery == s.generation && s.queries[q].result.Some? ==>
          s.queries[q].result.value.asOf >= s.delivered)
  }

  lemma {:induction false} RunsKeepInv(events: seq<Event>)
    requires IsRun(events)
    ensures Inv(After(events))
  {
    if events != [] {
      RunsKeepInv(events[..|events| - 1]);
    }
  }

  /** In every run: once the notification of a change has been delivered, no hit serves data read
      before that change. */
  lemma {:induction false} HitsSeeNotifiedChanges(events: seq<Event>, key: string, now: int)
    requires IsRun(events) && Lookup(After(events).cache, key, now).Some?
    ensures After(events).delivered <= Lookup(After(events).cache, key, now).value.asOf <= After(events).version
  {
    RunsKeepInv(events);
    VersionsAreReal(events);
  }

  predicate Real(s: System) {
    && (forall key :: key in s.cache ==> s.cache[key].data.asOf <= s.version)
    && (forall q :: q in s.queries && s.queries[q].result.Some? ==> s.queries[q].result.value.asOf <= s.version)
  }

  lemma {:induction false} VersionsAreReal(events: seq<Event>)
    requires IsRun(events)
    ensures Real(After(events))
  {
    if events != [] {
      VersionsAreReal(events[..|events| - 1]);
    }
  }

  function Invalidations(events: seq<Event>): nat {
    if events == [] then 0
    else Invalidations(events[..|events| - 1]) + (if events[|events| - 1].Notified? then 1 else 0)
  }

  /** The generation a query brings back tells exactly whether an invalidation overtook it. */
  lemma {:induction false} GenerationTellsOvertaken(before: seq<Event>, begins: Event, middle: seq<Event>)
    requires begins.Begins? && IsRun(before + [begins] + middle)
    requires forall e :: e in middle
               ==> !(e.Begins? && e.query == begins.query) && !(e.Ends? && e.query == begins.query)
    ensures var s := After(before + [begins] + middle);
      && begins.query in s.queries
      && s.queries[begins.query].generationAtQuery + Invalidations(middle) == s.generation
    decreases |middle|
  {
    var events := before + [begins] + middle;
    if middle == [] {
      assert events == before + [begins];
      assert events[..|events| - 1] == before;
    } else {
      var front := middle[..|middle| - 1];
      assert events[..|events| - 1] == before + [begins] + front;
      assert events[|events| - 1] == middle[|middle| - 1];
      GenerationTellsOvertaken(before, begins, front);
    }
  }

  /** So a result is stored when no invalidation came in between, and dropped when one did. */
  lemma {:induction false} StoredUnlessOvertaken(before: seq<Event>, begins: Event, middle: seq<Event>, ttlMs: int)
    requires begins.Begins? && IsRun(before + [begins] + middle)
    requires forall e :: e in middle
               ==> !(e.Begins? && e.query == begins.query) && !(e.Ends? && e.query == begins.query)
    requires Enabled(After(before + [begins] + middle), Ends(begins.query, ttlMs))
    ensures var s := After(before + [begins] + middle);
      var query := s.queries[begins.query];
      Step(s, Ends(begins.query, ttlMs)).cache ==
        if Invalidations(middle) == 0 then s.cache[query.key := Entry(query.result.value, query.begunAt + ttlMs)]
        else s.cache
  {
    GenerationTellsOvertaken(before, begins, middle);
  }

  lemma {:induction false} QueryKeepsItsQuestion(before: seq<Event>, begins: Event, middle: seq<Event>)
    requires begins.Begins? && IsRun(before + [begins] + middle)
    requires forall e :: e in middle
               ==> !(e.Begins? && e.query == begins.query) && !(e.Ends? && e.query == begins.query)
    ensures var s := After(before + [begins] + middle);
      && begins.query in s.queries
      && s.queries[begins.query].key == begins.key && s.queries[begins.query].begunAt == begins.now
    decreases |middle|
  {
    var events := before + [begins] + middle;
    if middle == [] {
      assert events == before + [begins];
      assert events[..|events| - 1] == before;
    } else {
      var front := middle[..|middle| - 1];
      assert events[..|events| - 1] == before + [begins] + front;
      assert events[|events| - 1] == middle[|middle| - 1];
      QueryKeepsItsQuestion(before, begins, front);
    }
  }

  /** A stored result is a hit for its key until its time to live, counted from the start of the query, is over. */
  lemma {:induction false} StoredServesUntilExpiry(before: seq<Event>, begins: Event, middle: seq<Event>, ttlMs: int,
                                                   later: int)
    requires begins.Begins? && IsRun(before + [begins] + middle) && Invalidations(middle) == 0
    requires forall e :: e in middle
               ==> !(e.Begins? && e.query == begins.query) && !(e.Ends? && e.query == begins.query)
    requires Enabled(After(before + [begins] + middle), Ends(begins.query, ttlMs))
    ensures var s := After(before + [begins] + middle);
      Lookup(Step(s, Ends(begins.query, ttlMs)).cache, begins.key, later)
        == if later < begins.now + ttlMs then s.queries[begins.query].result else None
  {
    QueryKeepsItsQuestion(before, begins, middle);
    StoredUnlessOvertaken(before, begins, middle, ttlMs);
  }

  /** Event k ends a query of the key with this result, which lives until then. */
  predicate StoredBy(events: seq<Event>, k: nat, key: string, e: Entry) {
    && k < |events| && events[k].Ends? && IsRun(events[..k]) && Enabled(After(events[..k]), events[k])
    && var query := After(events[..k]).queries[events[k].query];
       query.key == key && query.result == Some(e.data) && e.expiresAt == query.begunAt + events[k].ttlMs
  }

  ghost predicate IsStored(events: seq<Event>, key: string, e: Entry) { exists k: nat :: StoredBy(events, k, key, e) }

  lemma {:induction false} StaysStored(before: seq<Event>, event: Event, key: string, e: Entry)
    requires IsStored(before, key, e)
    ensures IsStored(before + [event], key, e)
  {
    var k: nat :| StoredBy(before, k, key, e);
    assert (before + [event])[..k] == before[..k];
    assert StoredBy(before + [event], k, key, e);
  }

  lemma {:induction false} CacheIsStored(events: seq<Event>, key: string)
    requires IsRun(events) && key in After(events).cache
    ensures IsStored(events, key, After(events).cache[key])
  {
    var before, event := events[..|events| - 1], events[|events| - 1];
    var e := After(events).cache[key];
    assert events == before + [event];
    if key in After(before).cache && After(before).cache[key] == e {
      CacheIsStored(before, key);
      StaysStored(before, event, key, e);
    } else {
      assert StoredBy(events, |before|, key, e);
    }
  }

  /** In every run a hit is a result some query of the key came back with, and its time to live is not over. */
  lemma {:induction false} HitsAreLive(events: seq<Event>, key: string, now: int) returns (e: Entry)
    requires IsRun(events) && Lookup(After(events).cache, key, now).Some?
    ensures IsStored(events, key, e) && Lookup(After(events).cache, key, now) == Some(e.data) && now < e.expiresAt
  {
    CacheIsStored(events, key);
    e := After(events).cache[key];
  }
}
