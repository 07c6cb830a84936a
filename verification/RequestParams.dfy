/** The extra request parameters a model's allow-list lets through, picked out of the request body. */
module RequestParams {
  import opened Options
  import Text
  import Decimal

  /** A number too large to be finite has no value. */
  datatype Primitive = Boolean(flag: bool) | Number(value: Option<real>) | String(text: string)

  datatype Json = Null | Leaf(primitive: Primitive) | Array(items: seq<Json>) | Object(members: map<string, Json>)

  type Path = seq<string>

  /** Names that `in` finds on every object, although no member was written under them. */
  const INHERITED: set<string> := {
    "constructor", "__defineGetter__", "__defineSetter__", "hasOwnProperty", "__lookupGetter__", "__lookupSetter__",
    "isPrototypeOf", "propertyIsEnumerable", "toString", "valueOf", "__proto__", "toLocaleString"
  }

  const BLOCKED: set<string> := {"chat_template", "tokenize", "prompt", "api_key"}

  /** An array's members are its elements under their printed index, and its length. */
  function Member(j: Json, key: string): Option<Json> {
    match j
    case Object(members) => if key in members then Some(members[key]) else None
    case Array(items) =>
      if key == "length" then Some(Leaf(Number(Some(|items| as real))))
      else
        (match Decimal.Parse(key)
         case Some(i) => if 0 <= i < |items| && Decimal.Print(i) == key then Some(items[i]) else None
         case None => None)
    case _ => None
  }

  function At(j: Json, path: Path): Option<Json>
    decreases |path|
  {
    if path == [] then Some(j)
    else match Member(j, path[0])
      case Some(child) => At(child, path[1..])
      case None => None
  }

  method ReadAtDotPath(source: Json, segments: Path) returns (value: Option<Json>)
    ensures value == At(source, segments)
  {
    value := Some(source);
    for i := 0 to |segments|
      invariant At(source, segments) == if value.Some? then At(value.value, segments[i..]) else None
    {
      if value.None? {
        return;
      }
      assert segments[i..][0] == segments[i] && segments[i..][1..] == segments[i + 1..];
      value := Member(value.value, segments[i]);
    }
  }

  /** The tree with the value at the path, or nothing where a primitive stands in the way. A name every
      object inherits leads out of the tree, and so does writing a primitive to `__proto__`. */
  function Write(target: map<string, Json>, path: Path, value: Json): Option<map<string, Json>>
    decreases |path|
  {
    if path == [] then Some(target)
    else if |path| == 1 then Some(if path[0] == "__proto__" then target else target[path[0] := value])
    else if path[0] in target then
      if target[path[0]].Object? then
        (match Write(target[path[0]].members, path[1..], value)
         case Some(inner) => Some(target[path[0] := Object(inner)])
         case None => None)
      else None
    else if path[0] in INHERITED then Some(target)
    else
      match Write(map[], path[1..], value)
      case Some(inner) => Some(target[path[0] := Object(inner)])
      case None => None
  }

  datatype Entry = Entry(dotPath: string, typeName: string)

  predicate Validates(typeName: string, j: Json) {
    && j.Leaf?
    && match j.primitive
       case Boolean(_) => typeName == "boolean"
       case Number(value) => typeName == "number" && value.Some?
       case String(_) => typeName == "string"
  }

  /** The entry is not blocked and the body has a value of its type there. */
  predicate Passes(rawBody: map<string, Json>, entry: Entry) {
    var path := Text.Split(entry.dotPath, '.');
    path[0] !in BLOCKED && At(Object(rawBody), path).Some? && Validates(entry.typeName, At(Object(rawBody), path).value)
  }

  function Accepted(rawBody: map<string, Json>, allowed: seq<Entry>): set<Path> {
    set entry <- allowed | Passes(rawBody, entry) :: Text.Split(entry.dotPath, '.')
  }

  predicate Clean(path: Path) { forall key :: key in path ==> key !in INHERITED }

  /** The write at the path stays in the tree. */
  predicate Lands(path: Path)
    requires path != []
  {
    Clean(path[..|path| - 1]) && path[|path| - 1] != "__proto__"
  }

  /** Writing at the path makes an object at q. */
  predicate Opens(path: Path, q: Path) {
    0 < |q| < |path| && q == path[..|q|] && Clean(q)
  }

  predicate SomeOpens(paths: set<Path>, q: Path) { exists path :: path in paths && Opens(path, q) }

  /** What stands at q once the values at all the paths are written. */
  predicate Matches(found: Option<Json>, rawBody: map<string, Json>, paths: set<Path>, q: Path)
    requires q != []
  {
    if q in paths && Lands(q) then found == At(Object(rawBody), q)
    else if SomeOpens(paths, q) then found.Some? && found.value.Object?
    else found.None?
  }

  ghost predicate Shows(tree: map<string, Json>, rawBody: map<string, Json>, paths: set<Path>) {
    forall q: Path {:trigger At(Object(tree), q)} :: q != [] ==> Matches(At(Object(tree), q), rawBody, paths, q)
  }

  /** Exactly the allow-listed, unblocked and validated leaves of the body at their own paths. */
  ghost predicate IsExtract(result: Option<map<string, Json>>, rawBody: map<string, Json>, allowed: seq<Entry>) {
    && (result.None? <==> Accepted(rawBody, allowed) == {})
    && (result.Some? ==> Shows(result.value, rawBody, Accepted(rawBody, allowed)))
  }

  /** No primitive stands on the way, and objects only where a clean path leads. */
  ghost predicate Open(tree: map<string, Json>, path: Path) {
    && (forall n {:trigger path[..n]} :: 0 < n < |path| && At(Object(tree), path[..n]).Some?
          ==> At(Object(tree), path[..n]).value.Object? && Clean(path[..n]))
    && (At(Object(tree), path).Some? ==> At(Object(tree), path).value.Leaf?)
  }

  lemma {:induction false} AtPrefix(j: Json, path: Path, n: nat)
    requires n <= |path| && At(j, path).Some?
    ensures At(j, path[..n]).Some?
    ensures n < |path| ==> !At(j, path[..n]).value.Leaf?
    decreases n
  {
    if n > 0 {
      AtPrefix(Member(j, path[0]).value, path[1..], n - 1);
      assert path[..n][1..] == path[1..][..n - 1];
    }
  }

  lemma StaysOpen(tree: map<string, Json>, path: Path)
    requires Open(tree, path) && |path| >= 2
    ensures path[0] in tree ==> tree[path[0]].Object? && path[0] !in INHERITED && Open(tree[path[0]].members, path[1..])
    ensures path[0] !in tree ==> Open(map[], path[1..])
  {
    assert path[..1] == [path[0]];
    assert At(Object(tree), path[..1]) == Member(Object(tree), path[0]);
    if path[0] in tree {
      assert path[0] in path[..1];
      var inner := tree[path[0]];
      forall n | 0 < n < |path[1..]| && At(inner, path[1..][..n]).Some? ensures At(inner,
        path[1..][..n]).value.Object? && Clean(path[1..][..n]) {
        assert path[..n + 1][1..] == path[1..][..n];
        assert At(Object(tree), path[..n + 1]) == At(inner, path[1..][..n]);
      }
    }
  }

  lemma {:induction false} AtThroughMember(tree: map<string, Json>, key: string, child: Json, q: Path)
    requires q != []
    ensures At(Object(tree[key := child]), q) == if q[0] == key then At(child, q[1..]) else At(Object(tree), q)
  {
  }

  /** A path of several names opens and lands where the rest of it does, behind a first name that is not inherited. */
  lemma {:induction false} BehindFirst(path: Path, q: Path)
    requires |path| >= 2 && q != []
    ensures Lands(path) <==> path[0] !in INHERITED && Lands(path[1..])
    ensures Opens(path, q)
      <==> q[0] == path[0] && path[0] !in INHERITED && (|q| == 1 || Opens(path[1..], q[1..]))
    ensures q == path <==> q[0] == path[0] && q[1..] == path[1..]
  {
    var rest := path[1..];
    CleanBehindFirst(path[..|path| - 1]);
    assert path[..|path| - 1][1..] == rest[..|rest| - 1];
    CleanBehindFirst(q);
    if |q| < |path| && q[0] == path[0] {
      assert path[..|q|] == [path[0]] + rest[..|q| - 1];
    }
    assert path == [path[0]] + path[1..] && q == [q[0]] + q[1..];
  }

  lemma {:induction false} CleanBehindFirst(path: Path)
    requires path != []
    ensures Clean(path) <==> path[0] !in INHERITED && Clean(path[1..])
  {
    assert forall key :: key in path <==> key == path[0] || key in path[1..];
  }

  /** What one write changes, for every place in the tree. */
  lemma {:induction false} AtWritten(tree: map<string, Json>, path: Path, value: Json, q: Path)
    requires path != [] && q != [] && value.Leaf? && Open(tree, path)
    ensures Write(tree, path, value).Some?
    ensures var found := At(Object(Write(tree, path, value).value), q);
      if q == path && Lands(path) then found == Some(value)
      else if Opens(path, q) then found.Some? && found.value.Object?
      else found == At(Object(tree), q)
    decreases |path|
  {
    var key := path[0];
    if |path| == 1 {
      AtWrittenHere(tree, path, value, q);
    } else {
      StaysOpen(tree, path);
      BehindFirst(path, q);
      if key in tree || key !in INHERITED {
        var inner := if key in tree then tree[key].members else map[];
        AtWritten(inner, path[1..], value, if |q| >= 2 then q[1..] else path[1..]);
        AtThroughMember(tree, key, Object(Write(inner, path[1..], value).value), q);
      }
    }
  }

  lemma {:induction false} AtWrittenHere(tree: map<string, Json>, path: Path, value: Json, q: Path)
    requires |path| == 1 && q != [] && value.Leaf? && Open(tree, path)
    ensures Write(tree, path, value).Some? && !Opens(path, q)
    ensures At(Object(Write(tree, path, value).value), q)
      == if q == path && Lands(path) then Some(value) else At(Object(tree), q)
  {
    AtThroughMember(tree, path[0], value, q);
    assert At(Object(tree), path) == Member(Object(tree), path[0]);
    assert q == path <==> q[0] == path[0] && q[1..] == [];
  }

  /** A place the body passes through is no leaf of it, so accepted paths cannot clash. */
  lemma {:induction false} AcceptedStayOpen(tree: map<string, Json>, rawBody: map<string, Json>, paths: set<Path>,
                                            path: Path)
    requires forall p :: p in paths ==> p != [] && At(Object(rawBody), p).Some? && At(Object(rawBody), p).value.Leaf?
    requires path != [] && At(Object(rawBody), path).Some? && At(Object(rawBody), path).value.Leaf?
    requires Shows(tree, rawBody, paths)
    ensures Open(tree, path)
  {
    forall n {:trigger path[..n]} | 0 < n < |path| && At(Object(tree), path[..n]).Some?
      ensures At(Object(tree), path[..n]).value.Object? && Clean(path[..n])
    {
      AtPrefix(Object(rawBody), path, n);
      assert path[..n] !in paths;
      assert SomeOpens(paths, path[..n]);
    }
    if At(Object(tree), path).Some? && SomeOpens(paths, path) {
      var p :| p in paths && Opens(p, path);
      AtPrefix(Object(rawBody), p, |path|);
    }
  }

  lemma {:induction false} WriteShows(tree: map<string, Json>, rawBody: map<string, Json>, paths: set<Path>, path: Path)
    requires forall p :: p in paths ==> p != [] && At(Object(rawBody), p).Some? && At(Object(rawBody), p).value.Leaf?
    requires path != [] && At(Object(rawBody), path).Some? && At(Object(rawBody), path).value.Leaf?
    requires Shows(tree, rawBody, paths)
    ensures var written := Write(tree, path, At(Object(rawBody), path).value);
      written.Some? && Shows(written.value, rawBody, paths + {path})
  {
    var value := At(Object(rawBody), path).value;
    AcceptedStayOpen(tree, rawBody, paths, path);
    AtWritten(tree, path, value, path);
    var written := Write(tree, path, value).value;
    forall q: Path | q != [] ensures Matches(At(Object(written), q), rawBody, paths + {path}, q) {
      AtWritten(tree, path, value, q);
      assert Matches(At(Object(tree), q), rawBody, paths, q);
      assert SomeOpens(paths + {path}, q) <==> SomeOpens(paths, q) || Opens(path, q);
      if q in paths && Opens(path, q) {
        AtPrefix(Object(rawBody), path, |q|);
      }
    }
  }

  method ExtractAllowedRequestParams(rawBody: map<string, Json>,
                                     allowed: seq<Entry>) returns (result: Option<map<string, Json>>)
    ensures IsExtract(result, rawBody, allowed)
  {
    result := None;
    for i := 0 to |allowed|
      invariant IsExtract(result, rawBody, allowed[..i])
    {
      var entry := allowed[i];
      var segments := Text.Split(entry.dotPath, '.');
      assert allowed[..i + 1] == allowed[..i] + [entry];
      assert Accepted(rawBody, allowed[..i + 1])
        == Accepted(rawBody, allowed[..i]) + if Passes(rawBody, entry) then {segments} else {};
      if segments[0] in BLOCKED {
        continue;
      }
      var value := ReadAtDotPath(Object(rawBody), segments);
      if value.None? || !Validates(entry.typeName, value.value) {
        continue;
      }
      var tree := result.GetOr(map[]);
      WriteShows(tree, rawBody, Accepted(rawBody, allowed[..i]), segments);
      result := Write(tree, segments, value.value);
    }
    assert allowed[..|allowed|] == allowed;
  }

  predicate IsLeaf(found: Option<Json>) { found.Some? && found.value.Leaf? }

  /** The leaves of the result are the accepted paths that stay in the tree, with the body's own values. */
  lemma {:induction false} LeavesAreExactly(rawBody: map<string, Json>, allowed: seq<Entry>, result: map<string,
                                            Json>, q: Path)
    requires IsExtract(Some(result), rawBody, allowed) && q != []
    ensures IsLeaf(At(Object(result), q)) <==> q in Accepted(rawBody, allowed) && Lands(q)
    ensures IsLeaf(At(Object(result), q)) ==> At(Object(result), q) == At(Object(rawBody), q)
    ensures IsLeaf(At(Object(result), q)) ==> q[0] !in BLOCKED
  {
    assert Matches(At(Object(result), q), rawBody, Accepted(rawBody, allowed), q);
  }

  /** An array has its elements under their decimal index, its length, and nothing else. */
  lemma {:induction false} ArrayMembers(items: seq<Json>, key: string)
    ensures forall i: nat :: i < |items| ==> Member(Array(items), Decimal.Print(i)) == Some(items[i])
    ensures Member(Array(items), "length") == Some(Leaf(Number(Some(|items| as real))))
    ensures Member(Array(items), key).Some?
      ==> key == "length" || exists i: nat :: i < |items| && key == Decimal.Print(i)
  {
    forall i: nat | i < |items| ensures Member(Array(items), Decimal.Print(i)) == Some(items[i]) {
      Decimal.ParseOfPrint(i);
      var printed := Decimal.Print(i);
      assert Decimal.IsDigit(printed[0]) && !Decimal.IsDigit("length"[0]);
      assert printed != "length";
    }
  }

  /** An entry passes exactly if it is not blocked and the body has a value there of the type it names; only finite
      numbers count as numbers. */
  lemma {:induction false} PassesIff(rawBody: map<string, Json>, entry: Entry, found: Option<Json>)
    requires found == At(Object(rawBody), Text.Split(entry.dotPath, '.'))
    ensures Passes(rawBody, entry) <==>
      && Text.Split(entry.dotPath, '.')[0] !in {"chat_template", "tokenize", "prompt", "api_key"}
      && found.Some? && found.value.Leaf?
      && var p := found.value.primitive;
         || (entry.typeName == "boolean" && p.Boolean?)
         || (entry.typeName == "number" && p.Number? && p.value.Some?)
         || (entry.typeName == "string" && p.String?)
  {
  }

  /** A listed parameter the body has at the right type reaches the result exactly when its path stays clear
      of the names every object inherits. */
  lemma ListedArrivesIff(rawBody: map<string, Json>, allowed: seq<Entry>, result: Option<map<string, Json>>,
                         entry: Entry)
    requires IsExtract(result, rawBody, allowed) && entry in allowed && Passes(rawBody, entry)
    ensures var path := Text.Split(entry.dotPath, '.');
      result.Some? && (At(Object(result.value), path) == At(Object(rawBody), path) <==> Lands(path))
  {
    var path := Text.Split(entry.dotPath, '.');
    assert path in Accepted(rawBody, allowed);
    LeavesAreExactly(rawBody, allowed, result.value, path);
  }

  /** A parameter under a name every object inherits is lost: listed alone, the extract has no member at all. */
  lemma {:induction false} InheritedNameIsLost(rawBody: map<string, Json>, entry: Entry, path: Path)
    requires Passes(rawBody, entry) && path == Text.Split(entry.dotPath, '.')
    requires |path| >= 2 && path[0] in INHERITED
    ensures IsExtract(Some(map[]), rawBody, [entry])
  {
    assert Accepted(rawBody, [entry]) == {path};
    forall q: Path | q != [] ensures Matches(At(Object(map[]), q), rawBody, {path}, q) {
      BehindFirst(path, q);
    }
  }

  lemma {:induction false} SplitOfTwo(a: string, b: string, c: char)
    requires Text.Free(a, c) && Text.Free(b, c)
    ensures Text.Split(a + [c] + b, c) == [a, b]
  {
    Text.SplitPrefix(a, b, c);
    Text.SplitOfFree(b, c);
  }

  lemma {:induction false} AtNested(outer: string, inner: string, leaf: Json)
    ensures At(Object(map[outer := Object(map[inner := leaf])]), [outer, inner]) == Some(leaf)
  {
    assert [outer, inner][1..] == [inner] && [inner][1..] == [];
    var nested := Object(map[inner := leaf]);
    assert At(nested, [inner]) == At(leaf, []);
    assert At(Object(map[outer := nested]), [outer, inner]) == At(nested, [inner]);
  }

  /** A body and a listed parameter of it that is lost, for every inherited name that may be listed. */
  lemma {:induction false} InheritedNameDoesNotArrive(name: string, x: string, rawBody: map<string, Json>, entry: Entry)
    requires name in INHERITED && name !in BLOCKED && Text.Free(name, '.') && Text.Free(x, '.')
    requires rawBody == map[name := Object(map[x := Leaf(Boolean(true))])]
    requires entry == Entry(name + ['.'] + x, "boolean")
    ensures Passes(rawBody, entry) && IsExtract(Some(map[]), rawBody, [entry])
  {
    var path := [name, x];
    SplitOfTwo(name, x, '.');
    assert Text.Split(entry.dotPath, '.') == path && path[0] == name;
    AtNested(name, x, Leaf(Boolean(true)));
    assert Passes(rawBody, entry);
    InheritedNameIsLost(rawBody, entry, path);
  }

  /** Both lookups find nothing, the same leaf, or an object. */
  predicate SameKind(a: Option<Json>, b: Option<Json>) {
    || (a.None? && b.None?)
    || (a.Some? && b.Some? && (a.value.Leaf? || a.value.Object?) && (if a.value.Leaf? then a == b else b.value.Object?))
  }

  ghost predicate SameEverywhere(a: Json, b: Json) {
    forall q: Path {:trigger At(a, q)} {:trigger At(b, q)} :: SameKind(At(a, q), At(b, q))
  }

  lemma {:induction false} SameTree(a: Json, b: Json)
    requires SameEverywhere(a, b)
    ensures a == b
    decreases a
  {
    assert SameKind(At(a, []), At(b, []));
    if a.Object? {
      forall key ensures key in a.members <==> key in b.members
                 ensures key in a.members ==> a.members[key] == b.members[key]
      {
        assert At(a, [key]) == Member(a, key) && At(b, [key]) == Member(b, key);
        assert SameKind(At(a, [key]), At(b, [key]));
        if key in a.members {
          forall q: Path ensures SameKind(At(a.members[key], q), At(b.members[key], q)) {
            assert ([key] + q)[1..] == q;
            assert SameKind(At(a, [key] + q), At(b, [key] + q));
          }
          SameTree(a.members[key], b.members[key]);
        }
      }
    }
  }

  /** The result is determined by the set of entries: their order, and repeated entries, change nothing. */
  lemma OrderDoesNotMatter(rawBody: map<string, Json>, a: seq<Entry>, b: seq<Entry>, ra: Option<map<string, Json>>,
                           rb: Option<map<string, Json>>)
    requires IsExtract(ra, rawBody, a) && IsExtract(rb, rawBody, b)
    requires forall entry :: entry in a <==> entry in b
    ensures ra == rb
  {
    var paths := Accepted(rawBody, a);
    assert paths == Accepted(rawBody, b);
    if ra.Some? {
      var ta, tb := Object(ra.value), Object(rb.value);
      forall q: Path ensures SameKind(At(ta, q), At(tb, q)) {
        if q != [] {
          assert Matches(At(ta, q), rawBody, paths, q) && Matches(At(tb, q), rawBody, paths, q);
        }
      }
      SameTree(ta, tb);
    }
  }

}
