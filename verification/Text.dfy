/** String operations the sources rely on.

    Splitting at a character and joining with it are inverse on parts that are free of it, splitting a
    concatenation merges the parts that meet, and trimming removes what JavaScript counts as white space. */
module Text {
  /** The parts of s between occurrences of c. There is always at least one. */
  function Split(s: string, c: char): (parts: seq<string>)
    ensures |parts| >= 1
  {
    if s == [] then [""]
    else
      var rest := Split(s[1..], c);
      if s[0] == c then [""] + rest else Merge([[s[0]]], rest)
  }

  /** Two part lists put end to end: the parts that meet become one. */
  function Merge(a: seq<string>, b: seq<string>): (parts: seq<string>)
    requires a != [] && b != []
    ensures |parts| == |a| + |b| - 1
  {
    Front(a) + [Last(a) + b[0]] + b[1..]
  }

  lemma MergeAssociative(a: seq<string>, b: seq<string>, c: seq<string>)
    requires a != [] && b != [] && c != []
    ensures Merge(Merge(a, b), c) == Merge(a, Merge(b, c))
  {
    var left, right := Merge(Merge(a, b), c), Merge(a, Merge(b, c));
    if |b| == 1 {
      assert Last(a) + b[0] + c[0] == Last(a) + (b[0] + c[0]);
      assert Merge(a, b) == Front(a) + [Last(a) + b[0]];
      assert Merge(b, c) == [b[0] + c[0]] + c[1..];
      assert left == Front(a) + [Last(a) + b[0] + c[0]] + c[1..];
    } else {
      assert Merge(a, b) == Front(a) + [Last(a) + b[0]] + Front(b)[1..] + [Last(b)];
      assert Merge(b, c) == [b[0]] + Front(b)[1..] + [Last(b) + c[0]] + c[1..];
    }
  }

  function Join(parts: seq<string>, separator: string): string {
    if parts == [] then ""
    else if |parts| == 1 then parts[0]
    else parts[0] + separator + Join(parts[1..], separator)
  }

  predicate Free(s: string, c: char) { c !in s }

  function Last<T>(s: seq<T>): T
    requires s != []
  {
    s[|s| - 1]
  }

  function Front<T>(s: seq<T>): seq<T>
    requires s != []
  {
    s[..|s| - 1]
  }

  lemma {:induction false} SplitOfFree(s: string, c: char)
    requires Free(s, c)
    ensures Split(s, c) == [s]
  {
    if s != [] {
      SplitOfFree(s[1..], c);
      assert Merge([[s[0]]], [s[1..]]) == [[s[0]] + s[1..]];
      assert [s[0]] + s[1..] == s;
    }
  }

  lemma {:induction false} PartsAreFree(s: string, c: char)
    ensures forall part :: part in Split(s, c) ==> Free(part, c)
  {
    if s != [] {
      var rest := Split(s[1..], c);
      PartsAreFree(s[1..], c);
      if s[0] != c {
        assert rest[0] in rest && Free(rest[0], c);
        assert Free([s[0]] + rest[0], c);
        assert Split(s, c) == [[s[0]] + rest[0]] + rest[1..];
      }
    }
  }

  lemma {:induction false} MergeAfterSeparator(rest: seq<string>, tail: seq<string>)
    requires rest != [] && tail != []
    ensures Merge([""] + rest, tail) == [""] + Merge(rest, tail)
  {
    assert Front([""] + rest) == [""] + Front(rest);
  }

  lemma {:induction false} SplitConcat(a: string, b: string, c: char)
    ensures Split(a + b, c) == Merge(Split(a, c), Split(b, c))
  {
    var tail := Split(b, c);
    if a == [] {
      assert a + b == b && "" + tail[0] == tail[0];
      assert Merge([""], tail) == tail;
    } else {
      assert (a + b)[1..] == a[1..] + b;
      SplitConcat(a[1..], b, c);
      var rest := Split(a[1..], c);
      if a[0] == c {
        MergeAfterSeparator(rest, tail);
      } else {
        MergeAssociative([[a[0]]], rest, tail);
      }
    }
  }

  /** A part followed by the separator splits off as it is. */
  lemma {:induction false} SplitPrefix(part: string, rest: string, c: char)
    requires Free(part, c)
    ensures Split(part + [c] + rest, c) == [part] + Split(rest, c)
  {
    SplitOfFree(part, c);
    assert part + [c] + rest == part + ([c] + rest);
    SplitConcat(part, [c] + rest, c);
    assert ([c] + rest)[1..] == rest;
    assert part + "" == part;
    assert Merge([part], [""] + Split(rest, c)) == [part] + Split(rest, c);
  }

  lemma {:induction false} SplitJoin(parts: seq<string>, c: char)
    requires parts != [] && forall part :: part in parts ==> Free(part, c)
    ensures Split(Join(parts, [c]), c) == parts
  {
    if |parts| == 1 {
      SplitOfFree(parts[0], c);
    } else {
      SplitJoin(parts[1..], c);
      SplitPrefix(parts[0], Join(parts[1..], [c]), c);
      assert parts == [parts[0]] + parts[1..];
    }
  }

  // The white space that String.prototype.trim removes.

  predicate IsSpace(c: char) {
    || '\t' <= c <= '\r' || c == ' ' || c == '\U{00a0}' || c == '\U{1680}' || '\U{2000}' <= c <= '\U{200a}'
    || c == '\U{2028}' || c == '\U{2029}' || c == '\U{202f}' || c == '\U{205f}' || c == '\U{3000}' || c == '\U{feff}'
  }

  function TrimStart(s: string): string {
    if s != [] && IsSpace(s[0]) then TrimStart(s[1..]) else s
  }

  function TrimEnd(s: string): string {
    if s != [] && IsSpace(s[|s| - 1]) then TrimEnd(s[..|s| - 1]) else s
  }

  function Trim(s: string): string { TrimEnd(TrimStart(s)) }

  predicate Trimmed(s: string) { s != [] ==> !IsSpace(s[0]) && !IsSpace(s[|s| - 1]) }

  lemma TrimOfTrimmed(s: string)
    requires Trimmed(s)
    ensures Trim(s) == s
  {
  }

  predicate Blank(s: string) { forall i :: 0 <= i < |s| ==> IsSpace(s[i]) }

  lemma {:induction false} TrimStartCuts(s: string) returns (before: string)
    ensures Blank(before) && s == before + TrimStart(s) && (TrimStart(s) != [] ==> !IsSpace(TrimStart(s)[0]))
  {
    before := "";
    if s != [] && IsSpace(s[0]) {
      var more := TrimStartCuts(s[1..]);
      before := [s[0]] + more;
      assert s == [s[0]] + s[1..];
    }
  }

  lemma {:induction false} TrimEndCuts(s: string) returns (after: string)
    ensures Blank(after) && s == TrimEnd(s) + after && (TrimEnd(s) != [] ==> !IsSpace(TrimEnd(s)[|TrimEnd(s)| - 1]))
  {
    after := "";
    if s != [] && IsSpace(s[|s| - 1]) {
      var more := TrimEndCuts(s[..|s| - 1]);
      after := more + [s[|s| - 1]];
      assert s == s[..|s| - 1] + [s[|s| - 1]];
    }
  }

  /** Trimming cuts off white space at both ends, and all of it. */
  lemma {:induction false} TrimCuts(s: string) returns (before: string, after: string)
    ensures Blank(before) && Blank(after) && s == before + Trim(s) + after && Trimmed(Trim(s))
  {
    before := TrimStartCuts(s);
    after := TrimEndCuts(TrimStart(s));
    assert Trim(s) != [] ==> Trim(s)[0] == TrimStart(s)[0];
    assert before + (Trim(s) + after) == before + Trim(s) + after;
  }

  lemma {:induction false} TrimIsEmptyIff(s: string)
    ensures Trim(s) == "" <==> Blank(s)
  {
    var before, after := TrimCuts(s);
    var n := |before|;
    if Trim(s) != "" {
      assert s[n] == Trim(s)[0];
    } else {
      assert s == before + after;
      assert forall i :: 0 <= i < |s| ==> s[i] == if i < n then before[i] else after[i - n];
    }
  }

  predicate StartsWith(s: string, prefix: string) { prefix <= s }

  lemma {:induction false} StartsWithIff(s: string, prefix: string)
    ensures StartsWith(s, prefix) <==> exists rest :: s == prefix + rest
  {
    if StartsWith(s, prefix) {
      assert s == prefix + s[|prefix|..];
    }
  }

  // Concatenation of chunks.

  function Concat(chunks: seq<string>): string {
    if chunks == [] then "" else Concat(Front(chunks)) + Last(chunks)
  }
}
