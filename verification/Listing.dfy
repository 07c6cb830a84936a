/** Lists that keep some elements of another list, in its order.

    Places say which ones, and everything that could be kept has one. */
module Listing {
  /** The places rise, and each element kept stands for the one at its place. */
  predicate AtPlaces<T, U>(s: seq<T>, kept: seq<U>, at: seq<nat>, means: (T, U) -> bool) {
    && |at| == |kept| && (forall j, k :: 0 <= j < k < |at| ==> at[j] < at[k])
    && (forall k :: 0 <= k < |at| ==> at[k] < |s| && means(s[at[k]], kept[k]))
  }

  /** Besides, whatever stands for anything has its place. */
  ghost predicate Keeps<T, U(!new)>(s: seq<T>, kept: seq<U>, at: seq<nat>, means: (T, U) -> bool) {
    && AtPlaces(s, kept, at, means)
    && (forall i, u :: 0 <= i < |s| && means(s[i], u) ==> i in at)
  }

  function Moved(at: seq<nat>, n: nat): (r: seq<nat>)
    ensures |r| == |at| && forall k :: 0 <= k < |at| ==> r[k] == at[k] + n
  {
    seq(|at|, k requires 0 <= k < |at| => at[k] + n)
  }

  lemma {:induction false} MovedHas(at: seq<nat>, n: nat, i: nat)
    requires i in at
    ensures i + n in Moved(at, n)
  {
    var k :| 0 <= k < |at| && at[k] == i;
    assert Moved(at, n)[k] == i + n;
  }

  lemma {:induction false} AtPlacesConcat<T, U>(s: seq<T>, kept: seq<U>, at: seq<nat>, t: seq<T>, more: seq<U>,
                                                on: seq<nat>, means: (T, U) -> bool)
    requires AtPlaces(s, kept, at, means) && AtPlaces(t, more, on, means)
    ensures AtPlaces(s + t, kept + more, at + Moved(on, |s|), means)
  {
    var all, moved := at + Moved(on, |s|), Moved(on, |s|);
    forall k | 0 <= k < |all| ensures all[k] < |s + t| && means((s + t)[all[k]], (kept + more)[k]) {
      if k < |at| {
        assert all[k] == at[k];
      } else {
        assert all[k] == moved[k - |at|] && (kept + more)[k] == more[k - |at|];
      }
    }
  }

  lemma {:induction false} KeepsConcat<T, U(!new)>(s: seq<T>, kept: seq<U>, at: seq<nat>, t: seq<T>, more: seq<U>,
                                                   on: seq<nat>, means: (T, U) -> bool)
    requires Keeps(s, kept, at, means) && Keeps(t, more, on, means)
    ensures Keeps(s + t, kept + more, at + Moved(on, |s|), means)
  {
    AtPlacesConcat(s, kept, at, t, more, on, means);
    var all := at + Moved(on, |s|);
    forall i, u | 0 <= i < |s + t| && means((s + t)[i], u) ensures i in all {
      if i < |s| {
        assert i in at;
      } else {
        assert means(t[i - |s|], u);
        MovedHas(on, |s|, i - |s|);
      }
    }
  }

  /** A single element that stands for what is kept of it, or for nothing. */
  lemma {:induction false} KeepsOne<T, U(!new)>(x: T, kept: seq<U>, means: (T, U) -> bool) returns (at: seq<nat>)
    requires |kept| <= 1 && (kept != [] ==> means(x, kept[0])) && (kept == [] ==> forall u :: !means(x, u))
    ensures Keeps([x], kept, at, means)
  {
    at := if kept == [] then [] else [0];
    assert kept != [] ==> at[0] == 0;
  }
}
