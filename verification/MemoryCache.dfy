/** The in-process cache: a map in write order with expiry, kept within a number of characters by
    dropping the oldest writes. */
module MemoryCache {
  import opened Options
  import opened Text
  import Decimal

  datatype Entry = Entry(key: string, value: string, expiresAt: int)

  /** Entries from the oldest to the latest write, no key twice. */
  type Entries = seq<Entry>

  predicate DistinctKeys(entries: Entries) {
    forall i, j :: 0 <= i < j < |entries| ==> entries[i].key != entries[j].key
  }

  function Size(e: Entry): nat { |e.key| + |e.value| }

  function Total(entries: Entries): nat {
    if entries == [] then 0 else Size(entries[0]) + Total(entries[1..])
  }

  function Find(entries: Entries, key: string): (found: Option<Entry>)
    ensures found.Some? ==> found.value in entries && found.value.key == key
    ensures found.None? ==> forall e :: e in entries ==> e.key != key
  {
    if entries == [] then None
    else if entries[0].key == key then Some(entries[0])
    else Find(entries[1..], key)
  }

  function Without(entries: Entries, key: string): (rest: Entries)
    ensures forall e :: e in rest <==> e in entries && e.key != key
  {
    if entries == [] then []
    else if entries[0].key == key then Without(entries[1..], key)
    else [entries[0]] + Without(entries[1..], key)
  }

  /** Drops from the oldest end until the rest fits. */
  function Evict(entries: Entries, maxChars: nat): Entries {
    if Total(entries) <= maxChars || entries == [] then entries else Evict(entries[1..], maxChars)
  }

  function Stored(entries: Entries, e: Entry, maxChars: nat): Entries {
    Evict(Without(entries, e.key) + [e], maxChars)
  }

  predicate Live(e: Entry, now: int) { e.expiresAt > now }

  function Kept(entries: Entries, keep: Entry -> bool): (rest: Entries)
    ensures forall e :: e in rest <==> e in entries && keep(e)
  {
    if entries == [] then []
    else if keep(entries[0]) then [entries[0]] + Kept(entries[1..], keep)
    else Kept(entries[1..], keep)
  }

  function LiveOnly(entries: Entries, now: int): (rest: Entries)
    ensures forall e :: e in rest <==> e in entries && Live(e, now)
  {
    Kept(entries, (e: Entry) => Live(e, now))
  }

  function WithoutPrefix(entries: Entries, prefix: string): (rest: Entries)
    ensures forall e :: e in rest <==> e in entries && !StartsWith(e.key, prefix)
  {
    Kept(entries, (e: Entry) => !StartsWith(e.key, prefix))
  }

  lemma {:induction false} TotalConcat(a: Entries, b: Entries)
    ensures Total(a + b) == Total(a) + Total(b)
  {
    if a == [] {
      assert a + b == b;
    } else {
      assert (a + b)[1..] == a[1..] + b;
      TotalConcat(a[1..], b);
    }
  }

  lemma {:induction false} WithoutAccounts(entries: Entries, key: string)
    requires DistinctKeys(entries)
    ensures DistinctKeys(Without(entries, key))
    ensures Total(Without(entries, key))
        == Total(entries) - (match Find(entries, key) case Some(e) => Size(e) case None => 0)
    ensures Find(entries, key).None? ==> Without(entries, key) == entries
  {
    if entries != [] {
      WithoutAccounts(entries[1..], key);
      if entries[0].key == key {
        WithoutAbsent(entries[1..], key);
      }
      FirstKeyIsNew(entries, Without(entries[1..], key));
    }
  }

  lemma FirstKeyIsNew(entries: Entries, rest: Entries)
    requires entries != [] && DistinctKeys(entries) && DistinctKeys(rest)
    requires forall e :: e in rest ==> e in entries[1..]
    ensures DistinctKeys([entries[0]] + rest)
  {
    forall j | 0 <= j < |rest| ensures rest[j].key != entries[0].key {
      assert rest[j] in entries[1..];
      var k :| 0 <= k < |entries[1..]| && entries[1..][k] == rest[j];
      assert entries[k + 1] == rest[j];
    }
  }

  predicate Lacks(entries: Entries, key: string) { forall i :: 0 <= i < |entries| ==> entries[i].key != key }

  lemma {:induction false} WithoutAbsent(entries: Entries, key: string)
    requires Lacks(entries, key)
    ensures Without(entries, key) == entries && Find(entries, key).None?
  {
    if entries != [] {
      WithoutAbsent(entries[1..], key);
      assert entries == [entries[0]] + entries[1..];
    }
  }

  /** Eviction removes the shortest prefix of the write order that suffices, and the rest fits. */
  lemma {:induction false} EvictsShortestPrefix(entries: Entries, maxChars: nat) returns (k: nat)
    ensures k <= |entries| && Evict(entries, maxChars) == entries[k..]
    ensures Total(entries[k..]) <= maxChars
    ensures forall j :: 0 <= j < k ==> Total(entries[j..]) > maxChars
  {
    if Total(entries) <= maxChars || entries == [] {
      k := 0;
      assert entries[0..] == entries;
    } else {
      k := EvictsShortestPrefix(entries[1..], maxChars);
      k := k + 1;
      assert entries[k..] == entries[1..][k - 1..];
      forall j | 0 <= j < k ensures Total(entries[j..]) > maxChars {
        if j == 0 { assert entries[0..] == entries; } else { assert entries[j..] == entries[1..][j - 1..]; }
      }
    }
  }

  /** The latest write survives whenever it fits on its own. */
  lemma NewestSurvives(entries: Entries, e: Entry, maxChars: nat)
    requires DistinctKeys(entries) && Size(e) <= maxChars
    ensures Find(Stored(entries, e, maxChars), e.key) == Some(e)
  {
    var all := Without(entries, e.key) + [e];
    var k := EvictsShortestPrefix(all, maxChars);
    if k == |all| {
      assert all[k - 1..] == [e];
      assert Total([e]) == Size(e) + Total([]);
    }
    var kept := all[k..];
    assert kept[|kept| - 1] == e && e in kept;
    WithoutAccounts(entries, e.key);
    match Find(kept, e.key)
    case Some(found) => assert found in all;
    case None =>
  }

  // The reference: a map that never evicts and forgets nothing by itself.

  type Plain = map<string, Entry>

  function PlainRead(plain: Plain, key: string, now: int): Option<string> {
    if key in plain && Live(plain[key], now) then Some(plain[key].value) else None
  }

  /** A written value is there until its time to live is over, and other keys are as before. */
  lemma {:induction false} WrittenUntilExpiry(plain: Plain, key: string, value: string, ttlSeconds: int, now: int,
                                              other: string, later: int)
    ensures var written := plain[key := Entry(key, value, now + ttlSeconds * 1000)];
      && PlainRead(written, key, later) == (if later - now < ttlSeconds * 1000 then Some(value) else None)
      && (other != key ==> PlainRead(written, other, later) == PlainRead(plain, other, later))
  {
  }

  /** What String(n) gives, not-a-number included. */
  function Spell(n: Option<int>): string {
    match n
    case Some(i) => Decimal.Print(i)
    case None => "NaN"
  }

  function Plus(n: Option<int>, d: int): Option<int> {
    match n
    case Some(i) => Some(i + d)
    case None => None
  }

  /** The number a counter shows: what a live entry spells, 0 without one. */
  function CounterOf(entries: Entries, key: string, now: int): Option<int> {
    match Find(entries, key)
    case Some(e) => if Live(e, now) then Decimal.Parse(e.value) else Some(0)
    case None => Some(0)
  }

  /** A counter starts from 0, also once it has expired, and then shows the number its live entry spells. */
  lemma {:induction false} CounterShows(entries: Entries, key: string, now: int, e: Entry)
    requires DistinctKeys(entries)
    ensures !HasLive(entries, key, now) ==> CounterOf(entries, key, now) == Some(0)
    ensures e in entries && e.key == key && now < e.expiresAt
      ==> forall n :: e.value == Decimal.Print(n) ==> CounterOf(entries, key, now) == Some(n)
  {
    if e in entries && e.key == key {
      SameKeySameEntry(entries, e, key);
      forall n: int { Decimal.ParseOfPrint(n); }
    }
  }

  /** What is stored for the next count is read as it: one off the last, or still no number. */
  lemma {:induction false} NextCountReadsBack(n: int, d: int)
    ensures Decimal.Parse(Spell(Plus(Some(n), d))) == Some(n + d)
    ensures Spell(Plus(None, d)) == "NaN" && Decimal.Parse("NaN") == None
  {
    Decimal.ParseOfPrint(n + d);
    assert Decimal.ParseNat("NaN") == None;
  }

  /** What reading a key leaves: its entry is dropped if it has expired. */
  function WithoutExpired(entries: Entries, key: string, now: int): Entries {
    match Find(entries, key)
    case Some(e) => if Live(e, now) then entries else Without(entries, key)
    case None => entries
  }

  predicate KeepsLive(before: Entries, after: Entries, now: int) {
    forall e :: e in before && Live(e, now) ==> e in after
  }

  predicate HasLive(entries: Entries, key: string, now: int) {
    exists e :: e in entries && e.key == key && Live(e, now)
  }

  lemma {:induction false} WithoutTwice(entries: Entries, key: string)
    ensures Without(Without(entries, key), key) == Without(entries, key)
  {
    if entries != [] {
      WithoutTwice(entries[1..], key);
    }
  }

  /** Storing replaces the entry of the key anyway, so dropping it first makes no difference. */
  lemma {:induction false} StoredWithoutExpired(entries: Entries, e: Entry, maxChars: nat, now: int)
    ensures Stored(WithoutExpired(entries, e.key, now), e, maxChars) == Stored(entries, e, maxChars)
  {
    WithoutTwice(entries, e.key);
  }

  class Cache {
    const maxChars: nat
    var entries: Entries
    var chars: int
    ghost var plain: Plain

    ghost predicate Counted()
      reads this
    {
      && DistinctKeys(entries) && chars == Total(entries)
      && forall e :: e in entries ==> e.key in plain && plain[e.key] == e
    }

    /** Holds between operations. */
    ghost predicate Valid()
      reads this
    {
      Counted() && chars <= maxChars
    }

    constructor (maxChars: nat)
      ensures Valid() && this.maxChars == maxChars && entries == [] && plain == map[]
    {
      this.maxChars := maxChars;
      entries, chars, plain := [], 0, map[];
    }

    method Remove(key: string)
      requires Counted()
      modifies this`entries, this`chars
      ensures Counted() && chars <= old(chars)
      ensures entries == Without(old(entries), key)
    {
      WithoutAccounts(entries, key);
      var found := Find(entries, key);
      if found.Some? {
        chars := chars - (|key| + |found.value.value|);
        entries := Without(entries, key);
      }
    }

    method Read(key: string, now: int) returns (entry: Option<Entry>)
      requires Valid()
      modifies this`entries, this`chars
      ensures Valid()
      ensures var found := Find(old(entries), key);
        if found.Some? && !Live(found.value, now) then entry == None && entries == Without(old(entries), key)
        else entry == found && entries == old(entries)
      ensures entry.Some? ==> PlainRead(plain, key, now) == Some(entry.value.value)
    {
      entry := Find(entries, key);
      if entry.Some? && entry.value.expiresAt <= now {
        Remove(key);
        entry := None;
      }
    }

    method Store(key: string, value: string, expiresAt: int)
      requires Valid()
      modifies this
      ensures Valid()
      ensures entries == Stored(old(entries), Entry(key, value, expiresAt), maxChars)
      ensures plain == old(plain)[key := Entry(key, value, expiresAt)]
    {
      var e := Entry(key, value, expiresAt);
      Remove(key);
      TotalConcat(entries, [e]);
      entries := entries + [e];
      chars := chars + |key| + |value|;
      plain := plain[key := e];
      ghost var all := entries;
      while entries != [] && chars > maxChars
        invariant Counted()
        invariant Evict(entries, maxChars) == Evict(all, maxChars)
        invariant plain == old(plain)[key := e]
        decreases |entries|
      {
        var oldest := entries[0].key;
        ghost var rest := entries[1..];
        WithoutAbsent(rest, oldest);
        Remove(oldest);
        assert entries == rest;
      }
    }

    method Get(key: string, now: int) returns (value: Option<string>)
      requires Valid()
      modifies this`entries, this`chars
      ensures Valid()
      ensures value == None || value == PlainRead(plain, key, now)
      ensures KeepsLive(old(entries), entries, now)
      ensures HasLive(old(entries), key, now) ==> value == PlainRead(plain, key, now)
    {
      var entry := Read(key, now);
      value := if entry.Some? then Some(entry.value.value) else None;
      forall e | e in old(entries) && Live(e, now) ensures e in entries {
        if e.key == key { SameKeySameEntry(old(entries), e, key); }
      }
      if e :| e in old(entries) && e.key == key && Live(e, now) { SameKeySameEntry(old(entries), e, key); }
    }

    method MGet(keys: seq<string>, now: int) returns (values: seq<Option<string>>)
      requires Valid()
      modifies this`entries, this`chars
      ensures Valid() && |values| == |keys|
      ensures forall i :: 0 <= i < |keys| ==> values[i] == None || values[i] == PlainRead(plain, keys[i], now)
      ensures KeepsLive(old(entries), entries, now)
      ensures forall i :: 0 <= i < |keys| && HasLive(old(entries), keys[i], now)
                ==> values[i] == PlainRead(plain, keys[i], now)
    {
      values := [];
      for i := 0 to |keys|
        invariant Valid() && |values| == i && KeepsLive(old(entries), entries, now)
        invariant forall j :: 0 <= j < i ==> values[j] == None || values[j] == PlainRead(plain, keys[j], now)
        invariant forall j :: 0 <= j < i && HasLive(old(entries), keys[j], now)
                    ==> values[j] == PlainRead(plain, keys[j], now)
      {
        var value := Get(keys[i], now);
        values := values + [value];
      }
    }

    method Set(key: string, value: string, ttlSeconds: int, now: int)
      requires Valid()
      modifies this
      ensures Valid()
      ensures entries == Stored(old(entries), Entry(key, value, now + ttlSeconds * 1000), maxChars)
      ensures plain == old(plain)[key := Entry(key, value, now + ttlSeconds * 1000)]
    {
      Store(key, value, now + ttlSeconds * 1000);
    }

    method Del(key: string)
      requires Valid()
      modifies this
      ensures Valid() && entries == Without(old(entries), key) && plain == old(plain) - {key}
    {
      Remove(key);
      plain := plain - {key};
    }

    method DelPrefix(prefix: string)
      requires Valid()
      modifies this
      ensures Valid() && entries == WithoutPrefix(old(entries), prefix)
      ensures plain == map key | key in old(plain) && !StartsWith(key, prefix) :: old(plain)[key]
    {
      RemovePrefix(prefix);
      plain := map key | key in plain && !StartsWith(key, prefix) :: plain[key];
    }

    method RemovePrefix(prefix: string)
      requires Valid()
      modifies this`entries, this`chars
      ensures Valid() && entries == WithoutPrefix(old(entries), prefix)
    {
      var snapshot := entries;
      ghost var keep := (e: Entry) => !StartsWith(e.key, prefix);
      KeptEnds(snapshot, keep);
      for i := 0 to |snapshot|
        invariant Valid()
        invariant entries == KeptUpTo(snapshot, keep, i)
      {
        KeptStep(snapshot, keep, i);
        if StartsWith(snapshot[i].key, prefix) {
          Remove(snapshot[i].key);
        }
      }
    }

    method Sweep(now: int)
      requires Valid()
      modifies this`entries, this`chars
      ensures Valid() && entries == LiveOnly(old(entries), now)
    {
      var snapshot := entries;
      ghost var keep := (e: Entry) => Live(e, now);
      KeptEnds(snapshot, keep);
      for i := 0 to |snapshot|
        invariant Valid()
        invariant entries == KeptUpTo(snapshot, keep, i)
      {
        KeptStep(snapshot, keep, i);
        if snapshot[i].expiresAt <= now {
          Remove(snapshot[i].key);
        }
      }
    }

    function Counter(key: string, now: int): Option<int>
      reads this
    {
      CounterOf(entries, key, now)
    }

    method Incr(key: string, ttlSeconds: int, now: int) returns (next: Option<int>)
      requires Valid()
      modifies this
      ensures Valid() && next == Plus(old(Counter(key, now)), 1)
      ensures entries == Stored(old(entries), Entry(key, Spell(next), now + ttlSeconds * 1000), maxChars)
      ensures plain == old(plain)[key := Entry(key, Spell(next), now + ttlSeconds * 1000)]
      ensures Size(plain[key]) <= maxChars && ttlSeconds > 0 ==> Counter(key, now) == next
    {
      var entry := Read(key, now);
      var current := if entry.Some? then Decimal.Parse(entry.value.value) else Some(0);
      next := Plus(current, 1);
      StoredWithoutExpired(old(entries), Entry(key, Spell(next), now + ttlSeconds * 1000), maxChars, now);
      ghost var kept := entries;
      Store(key, Spell(next), now + ttlSeconds * 1000);
      ShownAfterStore(kept, key, next, now + ttlSeconds * 1000, maxChars);
    }

    method TryIncr(key: string, limit: int, ttlSeconds: int, now: int) returns (granted: bool)
      requires Valid()
      modifies this
      ensures Valid()
      ensures granted <==> !(old(Counter(key, now)).Some? && old(Counter(key, now)).value >= limit)
      ensures !granted ==> plain == old(plain) && entries == WithoutExpired(old(entries), key, now)
      ensures granted ==>
        var e := Entry(key, Spell(Plus(old(Counter(key, now)), 1)), now + ttlSeconds * 1000);
        entries == Stored(old(entries), e, maxChars)
      ensures granted
          ==> plain == old(plain)[key := Entry(key, Spell(Plus(old(Counter(key, now)), 1)), now + ttlSeconds * 1000)]
      ensures granted && Size(plain[key]) <= maxChars && ttlSeconds > 0
          ==> Counter(key, now) == Plus(old(Counter(key, now)), 1)
    {
      var entry := Read(key, now);
      var current := if entry.Some? then Decimal.Parse(entry.value.value) else Some(0);
      if current.Some? && current.value >= limit {
        return false;
      }
      ghost var kept := entries;
      StoredWithoutExpired(old(entries), Entry(key, Spell(Plus(current, 1)), now + ttlSeconds * 1000), maxChars, now);
      Store(key, Spell(Plus(current, 1)), now + ttlSeconds * 1000);
      ShownAfterStore(kept, key, Plus(current, 1), now + ttlSeconds * 1000, maxChars);
      return true;
    }

    method Decr(key: string, now: int)
      requires Valid()
      modifies this
      ensures Valid()
      ensures var found := Find(old(entries), key);
        if found.Some? && Live(found.value, now) then
          var next := Plus(Decimal.Parse(found.value.value), -1);
          && plain == old(plain)[key := Entry(key, Spell(next), found.value.expiresAt)]
          && entries == Stored(old(entries), Entry(key, Spell(next), found.value.expiresAt), maxChars)
          && (Size(plain[key]) <= maxChars ==> Counter(key, now) == next)
        else plain == old(plain) && entries == WithoutExpired(old(entries), key, now) && Counter(key, now) == Some(0)
    {
      var entry := Read(key, now);
      if entry.Some? {
        var next := Plus(Decimal.Parse(entry.value.value), -1);
        ghost var kept := entries;
        Store(key, Spell(next), entry.value.expiresAt);
        ShownAfterStore(kept, key, next, entry.value.expiresAt, maxChars);
      }
    }
  }

  lemma {:induction false} SameKeySameEntry(entries: Entries, e: Entry, key: string)
    requires DistinctKeys(entries) && e in entries && e.key == key
    ensures Find(entries, key) == Some(e)
  {
    match Find(entries, key)
    case None =>
    case Some(found) =>
      var i :| 0 <= i < |entries| && entries[i] == e;
      var j :| 0 <= j < |entries| && entries[j] == found;
  }

  lemma {:induction false} ShownAfterStore(entries: Entries, key: string, n: Option<int>, expiresAt: int, maxChars: nat)
    requires DistinctKeys(entries)
    ensures var e := Entry(key, Spell(n), expiresAt);
      Size(e) <= maxChars ==> Find(Stored(entries, e, maxChars), key) == Some(e) && Decimal.Parse(e.value) == n
  {
    var e := Entry(key, Spell(n), expiresAt);
    if Size(e) <= maxChars { NewestSurvives(entries, e, maxChars); }
    match n
    case Some(i) => Decimal.ParseOfPrint(i);
    case None => assert Decimal.ParseNat("NaN") == None;
  }

  lemma {:induction false} WithoutConcat(a: Entries, b: Entries, key: string)
    ensures Without(a + b, key) == Without(a, key) + Without(b, key)
  {
    if a == [] {
      assert a + b == b;
    } else {
      assert (a + b)[1..] == a[1..] + b;
      WithoutConcat(a[1..], b, key);
    }
  }

  lemma OthersDiffer(all: Entries, i: nat)
    requires DistinctKeys(all) && i < |all|
    ensures Lacks(all[..i], all[i].key) && Lacks(all[i + 1..], all[i].key)
  {
  }

  lemma {:induction false} RemoveInMiddle(all: Entries, before: Entries, e: Entry, after: Entries)
    requires DistinctKeys(all) && all == before + ([e] + after)
    ensures Without(all, e.key) == before + after
  {
    var i := |before|;
    OthersDiffer(all, i);
    assert all[..i] == before && all[i] == e && all[i + 1..] == after;
    WithoutConcat(before, [e] + after, e.key);
    WithoutAbsent(before, e.key);
    WithoutAbsent(after, e.key);
    assert ([e] + after)[1..] == after;
  }

  /** The entry between those looked at and those still to come stays or goes. */
  lemma {:induction false} KeepOrRemove(before: Entries, e: Entry, after: Entries, keep: bool)
    requires DistinctKeys(before + ([e] + after))
    ensures (if keep then before + [e] else before) + after
      == if keep then before + ([e] + after) else Without(before + ([e] + after), e.key)
  {
    if !keep {
      RemoveInMiddle(before + ([e] + after), before, e, after);
    }
  }

  lemma {:induction false} KeptPush(a: Entries, e: Entry, keep: Entry -> bool)
    ensures Kept(a + [e], keep) == if keep(e) then Kept(a, keep) + [e] else Kept(a, keep)
  {
    if a == [] {
      assert a + [e] == [e] && [e][1..] == [];
    } else {
      assert (a + [e])[1..] == a[1..] + [e];
      KeptPush(a[1..], e, keep);
    }
  }

  /** The entries once the first i have been looked at. */
  function KeptUpTo(snapshot: Entries, keep: Entry -> bool, i: nat): Entries
    requires i <= |snapshot|
  {
    Kept(snapshot[..i], keep) + snapshot[i..]
  }

  lemma {:induction false} KeptEnds(snapshot: Entries, keep: Entry -> bool)
    ensures KeptUpTo(snapshot, keep, 0) == snapshot && KeptUpTo(snapshot, keep, |snapshot|) == Kept(snapshot, keep)
  {
    assert snapshot[..0] == [] && snapshot[..|snapshot|] == snapshot;
  }

  lemma {:induction false} KeptStep(snapshot: Entries, keep: Entry -> bool, i: nat)
    requires i < |snapshot| && DistinctKeys(KeptUpTo(snapshot, keep, i))
    ensures KeptUpTo(snapshot, keep, i + 1)
      == if keep(snapshot[i]) then KeptUpTo(snapshot, keep, i)
         else Without(KeptUpTo(snapshot, keep, i), snapshot[i].key)
  {
    var e := snapshot[i];
    KeptPush(snapshot[..i], e, keep);
    assert snapshot[i..] == [e] + snapshot[i + 1..] && snapshot[..i + 1] == snapshot[..i] + [e];
    KeepOrRemove(Kept(snapshot[..i], keep), e, snapshot[i + 1..], keep(e));
  }
}
