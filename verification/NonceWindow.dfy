/** The request verifier that accepts each signature only once while it is fresh.

    Nonces are remembered in the order they were accepted until their signature's window has passed; each
    call forgets the expired ones at the front and stops at the first live one. */
module NonceWindow {
  import opened Options

  const MAX_SKEW_MS := 60_000

  /** A request whose header could be read; genuine says that its code matches the secret. */
  datatype Request = Request(timestamp: int, nonce: string, genuine: bool)

  datatype Verdict = Ok | Stale | Mismatch | Replayed

  datatype Entry = Entry(nonce: string, expiresAt: int)

  predicate Fresh(r: Request, now: int) { -MAX_SKEW_MS <= now - r.timestamp <= MAX_SKEW_MS }

  function VerifyRequest(r: Request, now: int): Verdict {
    if !Fresh(r, now) then Stale else if !r.genuine then Mismatch else Ok
  }

  /** Entries without the expired ones at the front. */
  function Pruned(entries: seq<Entry>, now: int): seq<Entry> {
    if entries != [] && entries[0].expiresAt < now then Pruned(entries[1..], now) else entries
  }

  predicate Remembers(entries: seq<Entry>, nonce: string) {
    exists i :: 0 <= i < |entries| && entries[i].nonce == nonce
  }

  function Answer(entries: seq<Entry>, r: Request, now: int): (Verdict, seq<Entry>) {
    var verdict := VerifyRequest(r, now);
    if !verdict.Ok? then (verdict, entries)
    else
      var pruned := Pruned(entries, now);
      if Remembers(pruned, r.nonce) then (Replayed, pruned) else (Ok,
                                                                  pruned + [Entry(r.nonce, r.timestamp + MAX_SKEW_MS)])
  }

  class Verifier {
    var entries: seq<Entry>

    constructor ()
      ensures entries == []
    {
      entries := [];
    }

    method Verify(r: Request, now: int) returns (verdict: Verdict)
      modifies this
      ensures (verdict, entries) == Answer(old(entries), r, now)
    {
      verdict := VerifyRequest(r, now);
      if !verdict.Ok? {
        return;
      }
      while entries != [] && entries[0].expiresAt < now
        invariant Pruned(entries, now) == Pruned(old(entries), now)
        decreases |entries|
      {
        entries := entries[1..];
      }
      if Remembers(entries, r.nonce) {
        return Replayed;
      }
      entries := entries + [Entry(r.nonce, r.timestamp + MAX_SKEW_MS)];
    }
  }

  // Runs

  datatype Arrival = Arrival(request: Request, now: int)

  function After(arrivals: seq<Arrival>): seq<Entry> {
    if arrivals == [] then []
    else Answer(After(arrivals[..|arrivals| - 1]), arrivals[|arrivals| - 1].request, arrivals[|arrivals| - 1].now).1
  }

  function VerdictOf(arrivals: seq<Arrival>, i: nat): Verdict
    requires i < |arrivals|
  {
    Answer(After(arrivals[..i]), arrivals[i].request, arrivals[i].now).0
  }

  predicate ClockNeverGoesBack(arrivals: seq<Arrival>) {
    forall i, j :: 0 <= i < j < |arrivals| ==> arrivals[i].now <= arrivals[j].now
  }

  predicate Has(entries: seq<Entry>, e: Entry) { exists i :: 0 <= i < |entries| && entries[i] == e }

  /** Pruning forgets only what has expired. */
  lemma {:induction false} LiveStays(entries: seq<Entry>, now: int, e: Entry)
    requires Has(entries, e) && e.expiresAt >= now
    ensures Has(Pruned(entries, now), e)
  {
    if entries[0].expiresAt < now {
      var i :| 0 <= i < |entries| && entries[i] == e;
      assert entries[1..][i - 1] == e;
      LiveStays(entries[1..], now, e);
    }
  }

  lemma {:induction false} LiveStaysInAnswer(entries: seq<Entry>, r: Request, now: int, e: Entry)
    requires Has(entries, e) && e.expiresAt >= now
    ensures Has(Answer(entries, r, now).1, e)
    ensures e.nonce == r.nonce ==> Answer(entries, r, now).0 != Ok
  {
    LiveStays(entries, now, e);
    var pruned := Pruned(entries, now);
    var i :| 0 <= i < |pruned| && pruned[i] == e;
    assert pruned[i].nonce == e.nonce;
    assert (pruned + [Entry(r.nonce, r.timestamp + MAX_SKEW_MS)])[i] == e;
  }

  /** An accepted signature is remembered as long as no later clock reading is past its window. */
  lemma {:induction false} AcceptedIsRemembered(arrivals: seq<Arrival>, i: nat)
    requires ClockNeverGoesBack(arrivals) && i < |arrivals| && VerdictOf(arrivals, i) == Ok
    requires arrivals[|arrivals| - 1].now <= arrivals[i].request.timestamp + MAX_SKEW_MS
    ensures Has(After(arrivals), Entry(arrivals[i].request.nonce, arrivals[i].request.timestamp + MAX_SKEW_MS))
  {
    var n := |arrivals| - 1;
    var before, e := arrivals[..n], Entry(arrivals[i].request.nonce, arrivals[i].request.timestamp + MAX_SKEW_MS);
    if i == n {
      assert before == arrivals[..i];
      var pruned := Pruned(After(before), arrivals[i].now);
      assert (pruned + [e])[|pruned|] == e;
    } else {
      assert before[..i] == arrivals[..i];
      AcceptedIsRemembered(before, i);
      LiveStaysInAnswer(After(before), arrivals[n].request, arrivals[n].now, e);
    }
  }

  /** What a verdict says of the request: it is stale exactly outside a minute either way, and of the others it is
      refused as a mismatch exactly unless its code is genuine; only then does the window decide. */
  lemma {:induction false} VerdictSays(arrivals: seq<Arrival>, i: nat)
    requires i < |arrivals|
    ensures var r, age := arrivals[i].request, arrivals[i].now - arrivals[i].request.timestamp;
      && (VerdictOf(arrivals, i) == Stale <==> age < -60_000 || age > 60_000)
      && (VerdictOf(arrivals, i) == Mismatch <==> -60_000 <= age <= 60_000 && !r.genuine)
      && (VerdictOf(arrivals, i) == Ok || VerdictOf(arrivals, i) == Replayed
          <==> -60_000 <= age <= 60_000 && r.genuine)
  {
  }

  /** While the clock never goes back, a signature is accepted at most once, and its nonce is refused with
      any other timestamp too until the signature's window has passed. */
  lemma {:induction false} AcceptedAtMostOnce(arrivals: seq<Arrival>, i: nat, j: nat)
    requires ClockNeverGoesBack(arrivals) && i < j < |arrivals| && VerdictOf(arrivals, i) == Ok
    requires arrivals[j].request.nonce == arrivals[i].request.nonce
    ensures arrivals[j].request.timestamp == arrivals[i].request.timestamp ==> VerdictOf(arrivals, j) != Ok
    ensures arrivals[j].now <= arrivals[i].request.timestamp + 60_000 ==> VerdictOf(arrivals, j) != Ok
  {
    if arrivals[j].now <= arrivals[i].request.timestamp + MAX_SKEW_MS {
      assert arrivals[..j][..i] == arrivals[..i];
      AcceptedIsRemembered(arrivals[..j], i);
      LiveStaysInAnswer(After(arrivals[..j]), arrivals[j].request, arrivals[j].now,
                        Entry(arrivals[i].request.nonce, arrivals[i].request.timestamp + MAX_SKEW_MS));
    }
  }

  // A clock that may go back.

  predicate AllExpired(entries: seq<Entry>, now: int, p: nat) {
    p < |entries| && forall q :: 0 <= q <= p ==> entries[q].expiresAt < now
  }

  /** Everything in the queue up to the entry has expired. */
  predicate ExpiredUpTo(entries: seq<Entry>, now: int, e: Entry) {
    exists p :: 0 <= p < |entries| && entries[p] == e && AllExpired(entries, now, p)
  }

  predicate OnlyEntry(entries: seq<Entry>, e: Entry) {
    forall q :: 0 <= q < |entries| && entries[q].nonce == e.nonce ==> entries[q] == e
  }

  /** Each nonce is in the queue once. */
  predicate Distinct(entries: seq<Entry>) {
    forall p, q :: 0 <= p < q < |entries| ==> entries[p].nonce != entries[q].nonce
  }

  lemma {:induction false} PrunedForgetsIff(entries: seq<Entry>, now: int, e: Entry)
    requires Distinct(entries) && Has(entries, e)
    ensures Has(Pruned(entries, now), e) <==> !ExpiredUpTo(entries, now, e)
    ensures Distinct(Pruned(entries, now))
  {
    PrunedIsSuffix(entries, now);
    if entries[0].expiresAt < now {
      assert forall q :: 0 <= q < |entries| - 1 ==> entries[1..][q] == entries[q + 1];
      if entries[0] == e {
        assert ExpiredUpTo(entries, now, e);
        PrunedIsSuffix(entries[1..], now);
        assert forall q :: 0 <= q < |entries| - 1 ==> entries[1..][q] != e;
        assert e !in entries[1..] && e !in Pruned(entries, now);
      } else {
        ExpiredTail(entries, now, e);
        PrunedForgetsIff(entries[1..], now, e);
      }
    }
  }

  lemma {:induction false} ExpiredTail(entries: seq<Entry>, now: int, e: Entry)
    requires Has(entries, e) && entries[0] != e && entries[0].expiresAt < now
    ensures Has(entries[1..], e)
    ensures ExpiredUpTo(entries, now, e) <==> ExpiredUpTo(entries[1..], now, e)
  {
    var p :| 0 <= p < |entries| && entries[p] == e;
    assert entries[1..][p - 1] == e;
    if ExpiredUpTo(entries, now, e) {
      var r :| 0 <= r < |entries| && entries[r] == e && AllExpired(entries, now, r);
      ExpiredWithoutFirst(entries, now, r);
      assert entries[1..][r - 1] == e;
    }
    if ExpiredUpTo(entries[1..], now, e) {
      var r :| 0 <= r < |entries[1..]| && entries[1..][r] == e && AllExpired(entries[1..], now, r);
      ExpiredWithoutFirst(entries, now, r + 1);
      assert entries[r + 1] == e;
    }
  }

  lemma {:induction false} ExpiredWithoutFirst(entries: seq<Entry>, now: int, r: nat)
    requires 0 < r < |entries| && entries[0].expiresAt < now
    ensures AllExpired(entries, now, r) <==> AllExpired(entries[1..], now, r - 1)
  {
    if AllExpired(entries[1..], now, r - 1) {
      forall q | 0 < q <= r ensures entries[q].expiresAt < now {
        assert entries[1..][q - 1].expiresAt < now;
      }
    }
  }

  lemma {:induction false} PrunedIsSuffix(entries: seq<Entry>, now: int)
    ensures forall e :: e in Pruned(entries, now) ==> e in entries
    ensures Distinct(entries) ==> Distinct(Pruned(entries, now))
  {
    if entries != [] && entries[0].expiresAt < now {
      PrunedIsSuffix(entries[1..], now);
    }
  }

  lemma {:induction false} QueueIsDistinct(arrivals: seq<Arrival>)
    ensures Distinct(After(arrivals))
  {
    if arrivals != [] {
      var n := |arrivals| - 1;
      QueueIsDistinct(arrivals[..n]);
      PrunedIsSuffix(After(arrivals[..n]), arrivals[n].now);
    }
  }

  /** Request k is genuine and fresh, and its clock reading is past everything in the queue up to the entry. */
  predicate Forgets(arrivals: seq<Arrival>, k: nat, e: Entry)
    requires k < |arrivals|
  {
    VerifyRequest(arrivals[k].request, arrivals[k].now).Ok? && ExpiredUpTo(After(arrivals[..k]), arrivals[k].now, e)
  }

  lemma {:induction false} AfterOneMore(arrivals: seq<Arrival>, k: nat)
    requires k < |arrivals|
    ensures After(arrivals[..k + 1]) == Answer(After(arrivals[..k]), arrivals[k].request, arrivals[k].now).1
  {
    assert arrivals[..k + 1][..k] == arrivals[..k] && arrivals[..k + 1][k] == arrivals[k];
  }

  /** Between acceptances of its nonce an entry is there until a request forgets it, and then stays away. */
  lemma {:induction false} EntryStep(arrivals: seq<Arrival>, k: nat, e: Entry)
    requires k < |arrivals| && OnlyEntry(After(arrivals[..k]), e)
    requires arrivals[k].request.nonce == e.nonce ==> VerdictOf(arrivals, k) != Ok
    ensures OnlyEntry(After(arrivals[..k + 1]), e)
    ensures Has(After(arrivals[..k + 1]), e) <==> Has(After(arrivals[..k]), e) && !Forgets(arrivals, k, e)
  {
    var entries, r, now := After(arrivals[..k]), arrivals[k].request, arrivals[k].now;
    AfterOneMore(arrivals, k);
    QueueIsDistinct(arrivals[..k]);
    PrunedIsSuffix(entries, now);
    var pruned := Pruned(entries, now);
    assert Has(pruned, e) <==> e in pruned;
    assert Has(entries, e) <==> e in entries;
    if Has(entries, e) {
      PrunedForgetsIff(entries, now, e);
    }
    var after := After(arrivals[..k + 1]);
    assert Has(after, e) <==> e in after;
    forall q | 0 <= q < |after| && after[q].nonce == e.nonce ensures after[q] == e {
      assert after[q] in after;
    }
  }

  predicate ForgottenBetween(arrivals: seq<Arrival>, i: nat, j: nat, e: Entry)
    requires i <= j <= |arrivals|
  {
    exists k :: i < k < j && Forgets(arrivals, k, e)
  }

  lemma {:induction false} EntryUntilForgotten(arrivals: seq<Arrival>, i: nat, j: nat, e: Entry)
    requires i < j <= |arrivals| && VerdictOf(arrivals, i) == Ok
    requires e == Entry(arrivals[i].request.nonce, arrivals[i].request.timestamp + MAX_SKEW_MS)
    requires forall k: nat :: i < k < j && arrivals[k].request.nonce == e.nonce ==> VerdictOf(arrivals, k) != Ok
    ensures OnlyEntry(After(arrivals[..j]), e)
    ensures Has(After(arrivals[..j]), e) <==> !ForgottenBetween(arrivals, i, j, e)
  {
    if j == i + 1 {
      AfterOneMore(arrivals, i);
      var pruned := Pruned(After(arrivals[..i]), arrivals[i].now);
      assert (pruned + [e])[|pruned|] == e;
      forall q | 0 <= q < |pruned| ensures pruned[q].nonce != e.nonce {
      }
    } else {
      EntryUntilForgotten(arrivals, i, j - 1, e);
      EntryStep(arrivals, j - 1, e);
      assert ForgottenBetween(arrivals, i, j, e)
          <==> ForgottenBetween(arrivals, i, j - 1, e) || Forgets(arrivals, j - 1, e);
    }
  }

  /** Whatever the clock does: a fresh replay is accepted if and only if a request in between came with a clock
      reading past the signature's window and past all that was queued before it; so no reading past the
      window in between means no second acceptance, wherever else the clock goes. */
  lemma {:induction false} AcceptedAgainIff(arrivals: seq<Arrival>, i: nat, j: nat)
    requires i < j < |arrivals| && VerdictOf(arrivals, i) == Ok
    requires arrivals[j].request == arrivals[i].request && Fresh(arrivals[j].request, arrivals[j].now)
    requires forall k: nat :: i < k < j && arrivals[k].request.nonce == arrivals[i].request.nonce
               ==> VerdictOf(arrivals, k) != Ok
    ensures VerdictOf(arrivals, j) == Ok
      <==> ForgottenBetween(arrivals, i, j,
                            Entry(arrivals[i].request.nonce, arrivals[i].request.timestamp + MAX_SKEW_MS))
    ensures (forall k :: i < k < j ==> arrivals[k].now <= arrivals[i].request.timestamp + MAX_SKEW_MS)
        ==> VerdictOf(arrivals, j) != Ok
  {
    var e := Entry(arrivals[i].request.nonce, arrivals[i].request.timestamp + MAX_SKEW_MS);
    var entries := After(arrivals[..j]);
    EntryUntilForgotten(arrivals, i, j, e);
    if Has(entries, e) {
      LiveStaysInAnswer(entries, arrivals[j].request, arrivals[j].now, e);
    } else {
      assert !Remembers(entries, e.nonce);
      PrunedKeepsNothingNew(entries, arrivals[j].now, e.nonce);
    }
  }

  /** A clock that steps back after a reading past the window does let a replay in. */
  lemma {:induction false} ClockStepBackLetsReplayIn(first: Request, other: Request)
    requires first == Request(0, "a", true) && other == Request(60_001, "b", true)
    ensures var arrivals := [Arrival(first, 0), Arrival(other, 60_001), Arrival(first, 60_000)];
      VerdictOf(arrivals, 0) == VerdictOf(arrivals, 1) == VerdictOf(arrivals, 2) == Ok
  {
    var arrivals := [Arrival(first, 0), Arrival(other, 60_001), Arrival(first, 60_000)];
    AfterOneMore(arrivals, 0);
    AfterOneMore(arrivals, 1);
    assert arrivals[..0] == [];
    assert After(arrivals[..1]) == [Entry("a", 60_000)];
    assert [Entry("a", 60_000)][1..] == [];
    assert "a" != "b" by { assert "a"[0] != "b"[0]; }
    assert After(arrivals[..2]) == [Entry("b", 120_001)];
  }

  /** A genuine, fresh request whose nonce was never accepted before is accepted. */
  lemma {:induction false} NewNonceIsAccepted(arrivals: seq<Arrival>, j: nat)
    requires j < |arrivals| && arrivals[j].request.genuine && Fresh(arrivals[j].request, arrivals[j].now)
    requires forall i: nat :: i < j && VerdictOf(arrivals, i) == Ok
               ==> arrivals[i].request.nonce != arrivals[j].request.nonce
    ensures VerdictOf(arrivals, j) == Ok
  {
    NeverRemembered(arrivals, j, arrivals[j].request.nonce);
    PrunedKeepsNothingNew(After(arrivals[..j]), arrivals[j].now, arrivals[j].request.nonce);
  }

  lemma {:induction false} PrunedKeepsNothingNew(entries: seq<Entry>, now: int, nonce: string)
    requires !Remembers(entries, nonce)
    ensures !Remembers(Pruned(entries, now), nonce)
  {
    if entries != [] && entries[0].expiresAt < now {
      assert forall i :: 0 <= i < |entries| - 1 ==> entries[1..][i] == entries[i + 1];
      PrunedKeepsNothingNew(entries[1..], now, nonce);
    }
  }

  lemma {:induction false} NeverRemembered(arrivals: seq<Arrival>, j: nat, nonce: string)
    requires j <= |arrivals|
    requires forall i: nat :: i < j && VerdictOf(arrivals, i) == Ok ==> arrivals[i].request.nonce != nonce
    ensures !Remembers(After(arrivals[..j]), nonce)
  {
    if j > 0 {
      NeverRemembered(arrivals, j - 1, nonce);
      assert arrivals[..j][..j - 1] == arrivals[..j - 1];
      PrunedKeepsNothingNew(After(arrivals[..j - 1]), arrivals[j - 1].now, nonce);
      assert VerdictOf(arrivals, j - 1) == Ok ==> arrivals[j - 1].request.nonce != nonce;
    }
  }
}
