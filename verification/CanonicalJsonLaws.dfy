/** Any JSON reader gets the meaning back from canonical text, and two values share it exactly if they mean the same. */
module CanonicalJsonLaws {
  import opened CanonicalJson
  import opened JsonReader
  import opened JsonValues
  import opened Options

  // Key order.

  lemma {:induction false} LessIrreflexive(a: Text)
    ensures !Less(a, a)
  {
    if a != [] { LessIrreflexive(a[1..]); }
  }

  lemma {:induction false} LessTransitive(a: Text, b: Text, c: Text)
    requires Less(a, b) && Less(b, c)
    ensures Less(a, c)
  {
    if a != [] && a[0] == b[0] && b[0] == c[0] { LessTransitive(a[1..], b[1..], c[1..]); }
  }

  lemma {:induction false} LessTotal(a: Text, b: Text)
    ensures Less(a, b) || Less(b, a) || a == b
  {
    if a != [] && b != [] && a[0] == b[0] {
      LessTotal(a[1..], b[1..]);
      assert a == [a[0]] + a[1..] && b == [b[0]] + b[1..];
    }
  }

  lemma {:induction false} CommonStart(a: Text, b: Text, k: nat)
    requires Common(a, b, k)
    ensures k == 0 || (a != [] && b != [] && a[0] == b[0])
  {
    if k > 0 {
      assert a[0] == a[..k][0] && b[0] == b[..k][0];
    }
  }

  /** Less is the order of code units. */
  lemma {:induction false} LessIsBefore(a: Text, b: Text)
    ensures Less(a, b) <==> Before(a, b)
  {
    if a != [] && b != [] && a[0] == b[0] {
      LessIsBefore(a[1..], b[1..]);
      if Less(a[1..], b[1..]) {
        var k: nat :| Common(a[1..], b[1..], k);
        assert a[..k + 1] == [a[0]] + a[1..][..k] && b[..k + 1] == [b[0]] + b[1..][..k];
        assert Common(a, b, k + 1);
      }
      if Before(a, b) {
        var k: nat :| Common(a, b, k);
        assert a[1..][..k - 1] == a[..k][1..] && b[1..][..k - 1] == b[..k][1..];
        assert Common(a[1..], b[1..], k - 1);
      }
    } else {
      assert b != [] && (a == [] || a[0] < b[0]) ==> Common(a, b, 0);
      if Before(a, b) {
        var k: nat :| Common(a, b, k);
        CommonStart(a, b, k);
      }
    }
  }

  predicate Sorted(members: seq<Member>) {
    forall i, j :: 0 <= i < j < |members| ==> Less(members[i].key, members[j].key)
  }

  predicate HasKey(members: seq<Member>, k: Text) { exists m :: m in members && m.key == k }

  lemma {:induction false} InsertSorts(m: Member, members: seq<Member>)
    requires Sorted(members) && !HasKey(members, m.key)
    ensures Sorted(Insert(m, members))
  {
    if members == [] {
    } else if Less(m.key, members[0].key) {
      forall j | 0 <= j < |members| ensures Less(m.key, members[j].key) {
        if j > 0 { LessTransitive(m.key, members[0].key, members[j].key); }
      }
    } else {
      var first, rest := members[0], members[1..];
      assert first in members;
      LessTotal(m.key, first.key);
      assert forall n :: n in rest ==> n in members;
      InsertSorts(m, rest);
      var r := Insert(m, rest);
      forall j | 0 <= j < |r| ensures Less(first.key, r[j].key) {
        assert r[j] in r;
        if r[j] != m {
          var k :| 0 <= k < |rest| && rest[k] == r[j];
          assert rest[k] == members[k + 1];
        }
      }
    }
  }

  lemma {:induction false} SortSorts(members: seq<Member>)
    requires DistinctKeys(members)
    ensures Sorted(Sort(members))
  {
    if members != [] {
      SortSorts(members[1..]);
      forall n | n in members[1..] ensures n.key != members[0].key {
        var k :| 0 <= k < |members[1..]| && members[1..][k] == n;
        assert members[k + 1] == n;
      }
      InsertSorts(members[0], Sort(members[1..]));
    }
  }

  lemma {:induction false} DefinedKeepsDistinct(members: seq<Member>)
    requires DistinctKeys(members)
    ensures DistinctKeys(Defined(members))
  {
    if members != [] {
      DefinedKeepsDistinct(members[1..]);
      var rest := Defined(members[1..]);
      forall j | 0 <= j < |rest| ensures rest[j].key != members[0].key {
        assert rest[j] in rest;
        var k :| 0 <= k < |members[1..]| && members[1..][k] == rest[j];
        assert members[k + 1] == rest[j];
      }
    }
  }

  /** Two sorted member lists with the same keys have them in the same places. */
  lemma {:induction false} SameKeysSamePlaces(a: seq<Member>, b: seq<Member>)
    requires Sorted(a) && Sorted(b)
    requires forall k :: HasKey(a, k) <==> HasKey(b, k)
    ensures |a| == |b| && forall i :: 0 <= i < |a| ==> a[i].key == b[i].key
    decreases |a|
  {
    if a == [] {
      if b != [] { assert b[0] in b; assert HasKey(b, b[0].key); }
    } else {
      assert a[0] in a && HasKey(a, a[0].key);
      assert b != [] && b[0] in b && HasKey(b, b[0].key);
      if Less(a[0].key, b[0].key) && Less(b[0].key, a[0].key) {
        LessTransitive(a[0].key, b[0].key, a[0].key);
      }
      LessIrreflexive(a[0].key);
      forall k ensures HasKey(a[1..], k) <==> HasKey(b[1..], k) {
        TailKeys(a, k);
        TailKeys(b, k);
      }
      SameKeysSamePlaces(a[1..], b[1..]);
      forall i | 0 <= i < |a| ensures a[i].key == b[i].key {
        if i > 0 { assert a[1..][i - 1].key == b[1..][i - 1].key; }
      }
    }
  }

  lemma TailKeys(a: seq<Member>, k: Text)
    requires Sorted(a) && a != []
    ensures HasKey(a[1..], k) <==> HasKey(a, k) && k != a[0].key
  {
    if HasKey(a[1..], k) {
      var m :| m in a[1..] && m.key == k;
      var i :| 0 <= i < |a[1..]| && a[1..][i] == m;
      assert a[i + 1] == m && m in a;
      LessIrreflexive(k);
    }
    if HasKey(a, k) && k != a[0].key {
      var m :| m in a && m.key == k;
      var i :| 0 <= i < |a| && a[i] == m;
      assert a[1..][i - 1] == m;
    }
  }

  // Members and the map they mean.

  lemma {:induction false} MeaningOfMember(members: seq<Member>, k: Text)
    requires DistinctKeys(members)
    ensures k in MeaningOfMembers(members) <==> HasKey(Defined(members), k)
    ensures forall m :: m in Defined(members) && m.key == k
              ==> k in MeaningOfMembers(members) && MeaningOfMembers(members)[k] == MeaningOf(m.value)
  {
    if members != [] {
      var rest := members[1..];
      MeaningOfMember(rest, k);
      if !members[0].value.Undefined? {
        assert Defined(members) == [members[0]] + Defined(rest);
        assert members[0] in Defined(members);
        forall m | m in Defined(rest) ensures m.key != members[0].key && m in Defined(members) {
          var i :| 0 <= i < |rest| && rest[i] == m;
          assert members[i + 1] == m;
        }
      }
    }
  }

  lemma {:induction false} SortedMembersFacts(members: seq<Member>)
    requires DistinctKeys(members)
    ensures Sorted(SortedMembers(members))
    ensures forall k :: k in MeaningOfMembers(members) <==> HasKey(SortedMembers(members), k)
    ensures forall m :: m in SortedMembers(members) ==>
      m in members && m.key in MeaningOfMembers(members) && MeaningOfMembers(members)[m.key] == MeaningOf(m.value)
  {
    DefinedKeepsDistinct(members);
    SortSorts(Defined(members));
    forall k ensures k in MeaningOfMembers(members) <==> HasKey(SortedMembers(members), k) {
      MeaningOfMember(members, k);
    }
    forall m | m in SortedMembers(members)
      ensures m in members && m.key in MeaningOfMembers(members)
          && MeaningOfMembers(members)[m.key] == MeaningOf(m.value)
    {
      MeaningOfMember(members, m.key);
    }
  }

  lemma ValidMembers(members: seq<Member>)
    requires Valid(Object(members))
    ensures forall m :: m in SortedMembers(members) ==> Valid(m.value)
  {
    forall m | m in SortedMembers(members) ensures Valid(m.value) {
      var i :| 0 <= i < |members| && members[i] == m;
    }
  }

  // Equal meanings are printed alike.

  lemma {:induction false} SameMeaningSameText(v: Json, w: Json)
    requires Valid(v) && Valid(w) && MeaningOf(v) == MeaningOf(w)
    ensures Canonical(v) == Canonical(w)
    decreases Height(v), 1, 0
  {
    match v
    case Array(items) => SameItems(items, w.items);
    case Object(members) =>
      var others := w.members;
      SortedMembersFacts(members);
      SortedMembersFacts(others);
      ValidMembers(members);
      ValidMembers(others);
      var a, b := SortedMembers(members), SortedMembers(others);
      SameKeysSamePlaces(a, b);
      forall i | 0 <= i < |a| ensures MeaningOf(a[i].value) == MeaningOf(b[i].value) {
        assert a[i] in a && b[i] in b;
      }
      SameMembers(a, b);
    case _ =>
  }

  lemma {:induction false} SameItems(a: seq<Json>, b: seq<Json>)
    requires forall i :: 0 <= i < |a| ==> Valid(a[i])
    requires forall i :: 0 <= i < |b| ==> Valid(b[i])
    requires MeaningOfItems(a) == MeaningOfItems(b)
    ensures ItemsText(a) == ItemsText(b) && MoreItems(a) == MoreItems(b)
    decreases ItemsHeight(a), 2, |a|
  {
    if a == [] {
      assert b == [];
    } else {
      assert MeaningOfItems(a) == [MeaningOf(a[0])] + MeaningOfItems(a[1..]);
      assert b != [];
      assert MeaningOfItems(b) == [MeaningOf(b[0])] + MeaningOfItems(b[1..]);
      assert MeaningOf(a[0]) == MeaningOfItems(a)[0] == MeaningOf(b[0]);
      assert MeaningOfItems(a[1..]) == MeaningOfItems(a)[1..] == MeaningOfItems(b[1..]);
      SameMeaningSameText(a[0], b[0]);
      SameItems(a[1..], b[1..]);
    }
  }

  lemma {:induction false} SameMembers(a: seq<Member>, b: seq<Member>)
    requires |a| == |b|
    requires forall i :: 0 <= i < |a| ==>
      a[i].key == b[i].key && Valid(a[i].value) && Valid(b[i].value) && MeaningOf(a[i].value) == MeaningOf(b[i].value)
    ensures MembersText(a) == MembersText(b) && MoreMembers(a) == MoreMembers(b)
    decreases MembersHeight(a), 2, |a|
  {
    if a != [] {
      SameMeaningSameText(a[0].value, b[0].value);
      SameMembers(a[1..], b[1..]);
    }
  }

  // Printed text reads back.

  predicate Delimited(r: Text) { r == [] || !IsNumberUnit(r[0]) }

  predicate NumberUnits(t: Text) { forall i :: 0 <= i < |t| ==> IsNumberUnit(t[i]) }

  lemma {:induction false} UnitsConcat(t: Text, n: nat)
    requires n <= |t| && NumberUnits(t[..n]) && NumberUnits(t[n..])
    ensures NumberUnits(t)
  {
    assert t == t[..n] + t[n..];
  }

  lemma {:induction false} DigitsAreUnits(t: Text)
    ensures NumberUnits(t[..Digits(t)])
  {
  }

  lemma {:induction false} ExponentUnits(t: Text)
    requires IsExponent(t)
    ensures NumberUnits(t)
  {
    if t != [] {
      var n := if Starts(t[1..], '+') || Starts(t[1..], '-') then 2 else 1;
      DigitsAreUnits(t[n..]);
      assert t[n..][..|t| - n] == t[n..];
      UnitsConcat(t, n);
    }
  }

  lemma {:induction false} FractionUnits(t: Text)
    requires IsFraction(t)
    ensures NumberUnits(t)
  {
    if Starts(t, '.') {
      var digits := t[1..];
      ExponentUnits(t[1 + Digits(digits)..]);
      assert digits[Digits(digits)..] == t[1 + Digits(digits)..];
      DigitsAreUnits(digits);
      UnitsConcat(digits, Digits(digits));
      UnitsConcat(t, 1);
    } else {
      ExponentUnits(t);
    }
  }

  lemma {:induction false} UnsignedUnits(t: Text)
    requires IsUnsigned(t)
    ensures t != [] && NumberUnits(t) && IsDigit(t[0])
  {
    DigitsAreUnits(t);
    FractionUnits(t[Digits(t)..]);
    UnitsConcat(t, Digits(t));
  }

  lemma {:induction false} SpellingUnits(t: Spelling)
    ensures t != [] && NumberUnits(t) && (IsDigit(t[0]) || t[0] == Code('-'))
  {
    if Starts(t, '-') {
      UnsignedUnits(t[1..]);
      UnitsConcat(t, 1);
    } else {
      UnsignedUnits(t);
    }
  }

  lemma {:induction false} NumberEnds(t: Text, r: Text)
    requires NumberUnits(t) && Delimited(r)
    ensures NumberLength(t + r) == |t| && (t + r)[..|t|] == t && (t + r)[|t|..] == r
  {
    if t != [] {
      assert (t + r)[1..] == t[1..] + r;
      NumberEnds(t[1..], r);
    }
  }

  lemma {:induction false} HexReads(d: nat)
    requires d < 16
    ensures HexValue(HexDigit(d)) == Some(d)
  {
  }

  lemma {:induction false} HexSum(u: Unit)
    ensures u == u / 4096 * 4096 + u / 256 % 16 * 256 + u / 16 % 16 * 16 + u % 16
  {
    assert u / 16 / 16 == u / 256 && u / 256 / 16 == u / 4096;
  }

  lemma {:induction false} UnicodeEscapeReads(u: Unit, r: Text)
    ensures ReadCharacter(UnicodeEscape(u) + r) == Some(Read([u], r))
  {
    var s := UnicodeEscape(u) + r;
    HexReads(u / 4096);
    HexReads(u / 256 % 16);
    HexReads(u / 16 % 16);
    HexReads(u % 16);
    HexSum(u);
    var digits := s[2..];
    assert digits[0] == HexDigit(u / 4096) && digits[1] == HexDigit(u / 256 % 16);
    assert digits[2] == HexDigit(u / 16 % 16) && digits[3] == HexDigit(u % 16);
    assert s[6..] == r;
  }

  /** Whatever follows, an escaped unit reads as the unit. */
  lemma {:induction false} EscapeUnitReads(u: Unit, r: Text)
    ensures ReadCharacter(EscapeUnit(u) + r) == Some(Read([u], r))
  {
    var s := EscapeUnit(u) + r;
    if |EscapeUnit(u)| == 6 {
      UnicodeEscapeReads(u, r);
    } else if |EscapeUnit(u)| == 2 {
      assert s[0] == BACKSLASH && s[1] == EscapeUnit(u)[1] && s[2..] == r;
    } else {
      assert s[..1] == [u] && s[1..] == r;
    }
  }

  predicate StartsWithPair(t: Text) { |t| > 1 && IsHigh(t[0]) && IsLow(t[1]) }

  function TokenWidth(t: Text): nat { if StartsWithPair(t) then 2 else 1 }

  /** The printed form of the first unit or surrogate pair. */
  function Token(t: Text): Text
    requires t != []
  {
    if StartsWithPair(t) then t[..2] else EscapeUnit(t[0])
  }

  lemma {:induction false} TokenReads(t: Text, r: Text)
    requires t != []
    ensures TokenWidth(t) <= |t| && ReadCharacter(Token(t) + r) == Some(Read(t[..TokenWidth(t)], r))
    ensures (Token(t) + r)[0] != Code('"')
  {
    var s := Token(t) + r;
    if StartsWithPair(t) {
      assert s[0] == t[0] && s[1] == t[1] && s[..2] == t[..2] && s[2..] == r;
    } else {
      EscapeUnitReads(t[0], r);
      assert t[..1] == [t[0]];
    }
  }

  /** A printed string and its closing quote, before some rest. */
  function Closed(t: Text, r: Text): Text { Escape(t) + [QUOTE] + r }

  lemma {:induction false} ClosedFirst(t: Text, r: Text)
    ensures t == [] ==> Closed(t, r) == [QUOTE] + r
    ensures t != [] ==> TokenWidth(t) <= |t| && Closed(t, r) == Token(t) + Closed(t[TokenWidth(t)..], r)
  {
    if t != [] {
      var rest := t[TokenWidth(t)..];
      assert Token(t) + Escape(rest) + [QUOTE] + r == Token(t) + (Escape(rest) + [QUOTE] + r);
    }
  }

  lemma {:induction false} OneMoreCharacter(s: Text, first: Read<Text>, more: Read<Text>)
    requires s != [] && s[0] != Code('"') && ReadCharacter(s) == Some(first)
    requires ReadCharacters(first.rest) == Some(more)
    ensures ReadCharacters(s) == Some(Read(first.value + more.value, more.rest))
  {
  }

  lemma {:induction false} CharactersRead(t: Text, r: Text)
    ensures ReadCharacters(Closed(t, r)) == Some(Read(t, r))
    decreases |t|
  {
    ClosedFirst(t, r);
    if t == [] {
      assert ([QUOTE] + r)[1..] == r;
    } else {
      var n := TokenWidth(t);
      TokenReads(t, Closed(t[n..], r));
      CharactersRead(t[n..], r);
      OneMoreCharacter(Closed(t, r), Read(t[..n], Closed(t[n..], r)), Read(t[n..], r));
      assert t == t[..n] + t[n..];
    }
  }

  /** A printed string reads back as it was, whatever follows. */
  lemma {:induction false} QuoteReadsBack(t: Text, r: Text)
    ensures Starts(Quote(t) + r, '"') && ReadCharacters((Quote(t) + r)[1..]) == Some(Read(t, r))
  {
    assert (Quote(t) + r)[1..] == Closed(t, r);
    CharactersRead(t, r);
  }

  lemma {:induction false} QuoteDecodes(t: Text, z: Text, r: Text, s: Text)
    requires Quote(t) + r == Quote(z) + s
    ensures t == z && r == s
  {
    QuoteReadsBack(t, r);
    QuoteReadsBack(z, s);
  }

  // No other spelling of a string is shorter.

  lemma {:induction false} EscapeFirst(u: Unit, t: Text)
    ensures |Escape([u] + t)| <= |EscapeUnit(u)| + |Escape(t)|
  {
    var whole := [u] + t;
    if StartsWithPair(whole) {
      assert whole[2..] == t[1..] && !StartsWithPair(t);
      assert Escape(t) == EscapeUnit(t[0]) + Escape(t[1..]);
    } else {
      assert whole[1..] == t;
    }
  }

  lemma {:induction false} CharacterIsNoShorter(z: Text, first: Read<Text>, t: Text)
    requires ReadCharacter(z) == Some(first)
    ensures |Escape(first.value + t)| + |first.rest| <= |z| + |Escape(t)|
  {
    if |first.value| == 2 {
      assert (first.value + t)[2..] == t;
    } else {
      assert first.value == [first.value[0]];
      EscapeFirst(first.value[0], t);
    }
  }

  /** Among all the texts that read as the string, the printed one is the shortest. */
  lemma {:induction false} EscapeIsShortest(z: Text, t: Text, r: Text)
    requires ReadCharacters(z) == Some(Read(t, r))
    ensures |Escape(t)| + 1 + |r| <= |z|
    decreases |z|
  {
    if !Starts(z, '"') {
      var first := ReadCharacter(z).value;
      var more := ReadCharacters(first.rest).value;
      EscapeIsShortest(first.rest, more.value, r);
      CharacterIsNoShorter(z, first, more.value);
    }
  }

  // Values.

  /** The first unit tells the kinds of value apart. */
  lemma {:induction false} CanonicalLeads(v: Json, r: Text)
    ensures Canonical(v) != [] && (Canonical(v) + r)[0] == Canonical(v)[0]
    ensures Canonical(v)[0] != Code(']')
  {
    if v.Number? {
      SpellingUnits(v.spelling);
    }
  }

  lemma {:induction false} WordReadsBack(v: Json, r: Text) returns (w: Json)
    requires v.Undefined? || v.Null? || v.NonFinite? || v.Bool?
    ensures ReadValue(Canonical(v) + r) == Some(Read(w, r)) && !w.Undefined?
    ensures MeaningOf(w) == MeaningOf(v) && Ascending(w)
  {
    var s, n := Canonical(v) + r, |Canonical(v)|;
    assert s[n..] == r && forall i :: 0 <= i < n ==> s[i] == Canonical(v)[i];
    w := if v.Bool? then v else Null;
  }

  lemma {:induction false} NumberIsRead(s: Text, t: Spelling, r: Text)
    requires NumberLength(s) == |t| > 0 && s[..|t|] == t && s[|t|..] == r
    ensures ReadNumber(s) == Some(Read(Number(t), r))
  {
  }

  lemma {:induction false} NumberReadsBack(t: Spelling, r: Text)
    requires Delimited(r)
    ensures ReadValue(t + r) == Some(Read(Number(t), r))
  {
    SpellingUnits(t);
    NumberEnds(t, r);
    assert (t + r)[0] == t[0];
    NumberIsRead(t + r, t, r);
  }

  /** Any JSON reader gets the meaning back from the printed text, stops where it ends, and meets the keys of
      every object in ascending order. */
  lemma {:induction false} ReadsBack(v: Json, r: Text) returns (w: Json)
    requires Valid(v) && Delimited(r)
    ensures ReadValue(Canonical(v) + r) == Some(Read(w, r)) && !w.Undefined?
    ensures MeaningOf(w) == MeaningOf(v) && Ascending(w)
    decreases Height(v), 1, 0
  {
    match v
    case Number(t) =>
      NumberReadsBack(t, r);
      w := v;
    case String(t) =>
      QuoteReadsBack(t, r);
      w := v;
    case Array(items) => w := ArrayReadsBack(items, r);
    case Object(members) => w := ObjectReadsBack(members, r);
    case _ => w := WordReadsBack(v, r);
  }

  lemma {:induction false} Bracketed(open: Unit, text: Text, close: Unit, r: Text)
    ensures ([open] + text + [close] + r)[0] == open && ([open] + text + [close] + r)[1..] == text + [close] + r
  {
  }

  lemma {:induction false} ArrayReadsBack(items: seq<Json>, r: Text) returns (w: Json)
    requires Valid(Array(items))
    ensures ReadValue(Canonical(Array(items)) + r) == Some(Read(w, r)) && !w.Undefined?
    ensures MeaningOf(w) == MeaningOf(Array(items)) && Ascending(w)
    decreases ItemsHeight(items), 4, 0
  {
    Bracketed(OPEN_BRACKET, ItemsText(items), CLOSE_BRACKET, r);
    if items == [] {
      var s := Canonical(Array(items)) + r;
      assert s[1] == CLOSE_BRACKET && s[2..] == r;
      w := Array([]);
    } else {
      var ws := ItemsReadBack(items, r);
      w := Array(ws);
    }
  }

  lemma {:induction false} LastItem(s: Text, w: Json, r: Text)
    requires ReadValue(s) == Some(Read(w, [CLOSE_BRACKET] + r))
    ensures ReadItems(s) == Some(Read([w], r))
  {
    assert ([CLOSE_BRACKET] + r)[1..] == r;
  }

  lemma {:induction false} OneMoreItem(s: Text, w: Json, tail: Text, ws: seq<Json>, r: Text)
    requires ReadValue(s) == Some(Read(w, [COMMA] + tail)) && ReadItems(tail) == Some(Read(ws, r))
    ensures ReadItems(s) == Some(Read([w] + ws, r))
  {
    assert ([COMMA] + tail)[1..] == tail;
  }

  lemma {:induction false} AppendOne(first: Text, more: Text, close: Text, r: Text)
    requires more == []
    ensures first + more + close + r == first + (close + r)
  {
  }

  lemma {:induction false} AppendMore(comma: Text, first: Text, more: Text, close: Text, r: Text)
    ensures first + more + close + r == first + (more + close + r)
    ensures (comma + first + more) + close + r == comma + (first + more + close + r)
  {
  }

  lemma {:induction false} OneItemText(items: seq<Json>, r: Text)
    requires |items| == 1
    ensures ItemsText(items) + [CLOSE_BRACKET] + r == Canonical(items[0]) + ([CLOSE_BRACKET] + r)
  {
    assert items[1..] == [];
    AppendOne(Canonical(items[0]), MoreItems(items[1..]), [CLOSE_BRACKET], r);
  }

  lemma {:induction false} ItemsTextSplits(items: seq<Json>, r: Text)
    requires |items| > 1
    ensures ItemsText(items) + [CLOSE_BRACKET] + r
      == Canonical(items[0]) + ([COMMA] + (ItemsText(items[1..]) + [CLOSE_BRACKET] + r))
  {
    var rest := items[1..];
    AppendMore([COMMA], Canonical(items[0]), MoreItems(rest), [CLOSE_BRACKET], r);
    AppendMore([COMMA], Canonical(rest[0]), MoreItems(rest[1..]), [CLOSE_BRACKET], r);
  }

  lemma {:induction false} PrependItem(w: Json, ws: seq<Json>, items: seq<Json>)
    requires items != [] && MeaningOf(w) == MeaningOf(items[0]) && MeaningOfItems(ws) == MeaningOfItems(items[1..])
    ensures MeaningOfItems([w] + ws) == MeaningOfItems(items)
  {
    assert ([w] + ws)[1..] == ws;
  }

  lemma {:induction false} ItemsReadBack(items: seq<Json>, r: Text) returns (ws: seq<Json>)
    requires items != [] && forall i :: 0 <= i < |items| ==> Valid(items[i])
    ensures ReadItems(ItemsText(items) + [CLOSE_BRACKET] + r) == Some(Read(ws, r))
    ensures (ItemsText(items) + [CLOSE_BRACKET] + r)[0] != CLOSE_BRACKET
    ensures MeaningOfItems(ws) == MeaningOfItems(items) && forall i :: 0 <= i < |ws| ==> Ascending(ws[i])
    decreases ItemsHeight(items), 3, |items|
  {
    if |items| == 1 {
      OneItemText(items, r);
      CanonicalLeads(items[0], [CLOSE_BRACKET] + r);
      var w := ReadsBack(items[0], [CLOSE_BRACKET] + r);
      LastItem(Canonical(items[0]) + ([CLOSE_BRACKET] + r), w, r);
      PrependItem(w, [], items);
      ws := [w];
      assert [w] + [] == [w];
    } else {
      var tail := ItemsText(items[1..]) + [CLOSE_BRACKET] + r;
      ItemsTextSplits(items, r);
      CanonicalLeads(items[0], [COMMA] + tail);
      var w := ReadsBack(items[0], [COMMA] + tail);
      var more := ItemsReadBack(items[1..], r);
      OneMoreItem(Canonical(items[0]) + ([COMMA] + tail), w, tail, more, r);
      PrependItem(w, more, items);
      ws := [w] + more;
    }
  }

  // Members, once sorted.

  /** The same keys in the same places with values that mean the same. */
  predicate SameMembersMeant(a: seq<Member>, b: seq<Member>) {
    |a| == |b| && forall i :: 0 <= i < |a| ==> a[i].key == b[i].key && MeaningOf(a[i].value) == MeaningOf(b[i].value)
  }

  ghost predicate ReadMembersOk(ws: seq<Member>) {
    forall i :: 0 <= i < |ws| ==> Ascending(ws[i].value) && !ws[i].value.Undefined?
  }

  lemma {:induction false} PrependMember(m: Member, w: Member, members: seq<Member>, ws: seq<Member>)
    requires members != [] && members[0] == m && SameMembersMeant(ws, members[1..]) && ReadMembersOk(ws)
    requires w.key == m.key && MeaningOf(w.value) == MeaningOf(m.value) && Ascending(w.value) && !w.value.Undefined?
    ensures SameMembersMeant([w] + ws, members) && ReadMembersOk([w] + ws)
  {
    var all := [w] + ws;
    forall i | 0 <= i < |all|
      ensures all[i].key == members[i].key && MeaningOf(all[i].value) == MeaningOf(members[i].value)
      ensures Ascending(all[i].value) && !all[i].value.Undefined?
    {
      if i > 0 {
        assert all[i] == ws[i - 1] && members[i] == members[1..][i - 1];
      }
    }
  }

  lemma {:induction false} ReadKeyAndValue(s: Text, key: Text, tail: Text, v: Json, r: Text)
    requires Starts(s, '"') && ReadCharacters(s[1..]) == Some(Read(key, [COLON] + tail))
    requires ReadValue(tail) == Some(Read(v, r))
    ensures ReadMember(s) == Some(Read(Member(key, v), r))
  {
    assert ([COLON] + tail)[1..] == tail;
  }

  lemma {:induction false} MemberTextSplits(quoted: Text, value: Text, r: Text)
    ensures quoted + [COLON] + value + r == quoted + ([COLON] + (value + r))
  {
  }

  lemma {:induction false} MemberReadsBack(m: Member, r: Text) returns (w: Member)
    requires Valid(m.value) && Delimited(r)
    ensures ReadMember(MemberText(m) + r) == Some(Read(w, r)) && (MemberText(m) + r)[0] == QUOTE
    ensures w.key == m.key && MeaningOf(w.value) == MeaningOf(m.value) && Ascending(w.value) && !w.value.Undefined?
    decreases Height(m.value), 2, 0
  {
    var tail := Canonical(m.value) + r;
    MemberTextSplits(Quote(m.key), Canonical(m.value), r);
    QuoteReadsBack(m.key, [COLON] + tail);
    var v := ReadsBack(m.value, r);
    ReadKeyAndValue(MemberText(m) + r, m.key, tail, v, r);
    w := Member(m.key, v);
  }

  lemma {:induction false} LastMember(s: Text, w: Member, r: Text)
    requires ReadMember(s) == Some(Read(w, [CLOSE_BRACE] + r))
    ensures ReadMembers(s) == Some(Read([w], r))
  {
    assert ([CLOSE_BRACE] + r)[1..] == r;
  }

  lemma {:induction false} OneMoreMember(s: Text, w: Member, tail: Text, ws: seq<Member>, r: Text)
    requires ReadMember(s) == Some(Read(w, [COMMA] + tail)) && ReadMembers(tail) == Some(Read(ws, r))
    ensures ReadMembers(s) == Some(Read([w] + ws, r))
  {
    assert ([COMMA] + tail)[1..] == tail;
  }

  lemma {:induction false} OneMemberText(members: seq<Member>, r: Text)
    requires |members| == 1
    ensures MembersText(members) + [CLOSE_BRACE] + r == MemberText(members[0]) + ([CLOSE_BRACE] + r)
  {
    assert members[1..] == [];
    AppendOne(MemberText(members[0]), MoreMembers(members[1..]), [CLOSE_BRACE], r);
  }

  lemma {:induction false} MembersTextSplits(members: seq<Member>, r: Text)
    requires |members| > 1
    ensures MembersText(members) + [CLOSE_BRACE] + r
      == MemberText(members[0]) + ([COMMA] + (MembersText(members[1..]) + [CLOSE_BRACE] + r))
  {
    var rest := members[1..];
    AppendMore([COMMA], MemberText(members[0]), MoreMembers(rest), [CLOSE_BRACE], r);
    AppendMore([COMMA], MemberText(rest[0]), MoreMembers(rest[1..]), [CLOSE_BRACE], r);
  }

  lemma {:induction false} MembersReadBack(members: seq<Member>, r: Text) returns (ws: seq<Member>)
    requires members != [] && forall m :: m in members ==> Valid(m.value)
    ensures ReadMembers(MembersText(members) + [CLOSE_BRACE] + r) == Some(Read(ws, r))
    ensures (MembersText(members) + [CLOSE_BRACE] + r)[0] == QUOTE
    ensures SameMembersMeant(ws, members) && ReadMembersOk(ws)
    decreases MembersHeight(members), 4, |members|
  {
    if |members| == 1 {
      OneMemberText(members, r);
      var w := MemberReadsBack(members[0], [CLOSE_BRACE] + r);
      LastMember(MemberText(members[0]) + ([CLOSE_BRACE] + r), w, r);
      PrependMember(members[0], w, members, []);
      ws := [w];
      assert [w] + [] == [w];
    } else {
      var tail := MembersText(members[1..]) + [CLOSE_BRACE] + r;
      MembersTextSplits(members, r);
      var w := MemberReadsBack(members[0], [COMMA] + tail);
      var more := MembersReadBack(members[1..], r);
      OneMoreMember(MemberText(members[0]) + ([COMMA] + tail), w, tail, more, r);
      PrependMember(members[0], w, members, more);
      ws := [w] + more;
    }
  }

  lemma {:induction false} DefinedAll(members: seq<Member>)
    requires forall m :: m in members ==> !m.value.Undefined?
    ensures Defined(members) == members
  {
    if members != [] {
      DefinedAll(members[1..]);
    }
  }

  lemma {:induction false} PlaceOfKey(members: seq<Member>, k: Text) returns (i: nat)
    requires HasKey(members, k)
    ensures i < |members| && members[i].key == k
  {
    var m :| m in members && m.key == k;
    i :| i < |members| && members[i] == m;
  }

  lemma {:induction false} DefinedMemberMeans(ws: seq<Member>, i: nat)
    requires DistinctKeys(ws) && ReadMembersOk(ws) && i < |ws|
    ensures ws[i].key in MeaningOfMembers(ws) && MeaningOfMembers(ws)[ws[i].key] == MeaningOf(ws[i].value)
  {
    DefinedAll(ws);
    MeaningOfMember(ws, ws[i].key);
    assert ws[i] in ws;
  }

  lemma {:induction false} SortedMemberMeans(members: seq<Member>, i: nat)
    requires DistinctKeys(members) && i < |SortedMembers(members)|
    ensures var m := SortedMembers(members)[i];
      m.key in MeaningOfMembers(members) && MeaningOfMembers(members)[m.key] == MeaningOf(m.value)
  {
    SortedMembersFacts(members);
    assert SortedMembers(members)[i] in SortedMembers(members);
  }

  /** What is read off the sorted members means what the members mean. */
  lemma {:induction false} SortedMembersMean(members: seq<Member>, ws: seq<Member>)
    requires DistinctKeys(members) && SameMembersMeant(ws, SortedMembers(members))
    requires ReadMembersOk(ws) && DistinctKeys(ws)
    ensures MeaningOfMembers(ws) == MeaningOfMembers(members)
  {
    var m, n := MeaningOfMembers(ws), MeaningOfMembers(members);
    forall k | k in m ensures k in n && m[k] == n[k] {
      MeaningOfMember(ws, k);
      DefinedAll(ws);
      var i := PlaceOfKey(ws, k);
      DefinedMemberMeans(ws, i);
      SortedMemberMeans(members, i);
    }
    forall k | k in n ensures k in m {
      SortedMembersFacts(members);
      var i := PlaceOfKey(SortedMembers(members), k);
      DefinedMemberMeans(ws, i);
    }
  }

  lemma {:induction false} SameKeysDistinct(ws: seq<Member>, p: seq<Member>)
    requires SameMembersMeant(ws, p) && Sorted(p)
    ensures DistinctKeys(ws)
  {
    SortedDistinct(p);
  }

  lemma {:induction false} SortedDistinct(members: seq<Member>)
    requires Sorted(members)
    ensures DistinctKeys(members)
  {
    forall i, j | 0 <= i < j < |members| ensures members[i].key != members[j].key {
      LessIrreflexive(members[i].key);
    }
  }

  lemma {:induction false} BracedReadsBack(p: seq<Member>, r: Text) returns (ws: seq<Member>)
    requires forall m :: m in p ==> Valid(m.value)
    ensures ReadValue([OPEN_BRACE] + MembersText(p) + [CLOSE_BRACE] + r) == Some(Read(Object(ws), r))
    ensures SameMembersMeant(ws, p) && ReadMembersOk(ws)
    decreases MembersHeight(p), 5, 0
  {
    Bracketed(OPEN_BRACE, MembersText(p), CLOSE_BRACE, r);
    if p == [] {
      var s := [OPEN_BRACE] + MembersText(p) + [CLOSE_BRACE] + r;
      assert s[1] == CLOSE_BRACE && s[2..] == r;
      ws := [];
    } else {
      ws := MembersReadBack(p, r);
    }
  }

  lemma {:induction false} ObjectReadsBack(members: seq<Member>, r: Text) returns (w: Json)
    requires Valid(Object(members))
    ensures ReadValue(Canonical(Object(members)) + r) == Some(Read(w, r)) && !w.Undefined?
    ensures MeaningOf(w) == MeaningOf(Object(members)) && Ascending(w)
    decreases MembersHeight(members), 6, 0
  {
    var p := SortedMembers(members);
    ValidMembers(members);
    SortedMembersFacts(members);
    var ws := BracedReadsBack(p, r);
    SameKeysDistinct(ws, p);
    SortedMembersMean(members, ws);
    KeysAscend(ws, p);
    w := Object(ws);
  }

  lemma {:induction false} KeysAscend(ws: seq<Member>, p: seq<Member>)
    requires SameMembersMeant(ws, p) && Sorted(p)
    ensures forall i, j :: 0 <= i < j < |ws| ==> Before(ws[i].key, ws[j].key)
  {
    forall i, j | 0 <= i < j < |ws| ensures Before(ws[i].key, ws[j].key) {
      LessIsBefore(p[i].key, p[j].key);
    }
  }

  // Printed text can be read in one way only.

  lemma {:induction false} UniquelyDecodable(v: Json, w: Json, r: Text, s: Text)
    requires Valid(v) && Valid(w) && Delimited(r) && Delimited(s)
    requires Canonical(v) + r == Canonical(w) + s
    ensures MeaningOf(v) == MeaningOf(w) && r == s
  {
    var a := ReadsBack(v, r);
    var b := ReadsBack(w, s);
  }

  /** The canonical text decides meaning, in both directions. */
  lemma {:induction false} CanonicalIffSameMeaning(v: Json, w: Json)
    requires Valid(v) && Valid(w)
    ensures Canonical(v) == Canonical(w) <==> MeaningOf(v) == MeaningOf(w)
  {
    if Canonical(v) == Canonical(w) {
      UniquelyDecodable(v, w, [], []);
    }
    if MeaningOf(v) == MeaningOf(w) {
      SameMeaningSameText(v, w);
    }
  }

  /** Key order never shows: reordering an object's members keeps its text. */
  lemma KeyOrderDoesNotShow(members: seq<Member>, reordered: seq<Member>)
    requires Valid(Object(members)) && Valid(Object(reordered)) && multiset(members) == multiset(reordered)
    ensures Canonical(Object(members)) == Canonical(Object(reordered))
  {
    forall m ensures m in members <==> m in reordered {
      assert m in multiset(members) <==> m in multiset(reordered);
    }
    forall k ensures (k in MeaningOfMembers(members) <==> k in MeaningOfMembers(reordered))
      && (k in MeaningOfMembers(members) ==> MeaningOfMembers(members)[k] == MeaningOfMembers(reordered)[k])
    {
      MeaningOfMember(members, k);
      MeaningOfMember(reordered, k);
    }
    assert MeaningOfMembers(members) == MeaningOfMembers(reordered);
    SameMeaningSameText(Object(members), Object(reordered));
  }
}
