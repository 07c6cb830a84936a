/** The infoserver's model catalog.

    Local files load in order, each followed by what it includes, depth first; a refresh swaps in the whole
    new catalog or keeps the old one. */
module Catalog {
  import opened Options

  datatype Document = Document(source: string, models: map<string, string>, isLocal: bool)

  datatype Indexed = Indexed(source: string, model: string)

  datatype Index = Index(models: map<string, Indexed>, locals: set<string>)

  const EMPTY := Index(map[], {})

  /** A remote entry gives way to a local one; otherwise the later document wins. */
  predicate TakesOver(s: Index, d: Document, specifier: string) {
    specifier in d.models && (d.isLocal || specifier !in s.locals)
  }

  function IndexDocument(s: Index, d: Document): Index {
    Index(
      map specifier | specifier in s.models.Keys + (set k | k in d.models && TakesOver(s, d, k)) ::
        if TakesOver(s, d, specifier) then Indexed(d.source, d.models[specifier]) else s.models[specifier],
      if d.isLocal then s.locals + d.models.Keys else s.locals)
  }

  function Lookup(models: map<string, Indexed>, specifier: string): Option<Indexed> {
    if specifier in models then Some(models[specifier]) else None
  }

  /** What stands under the specifier once some entries of the document are indexed. */
  function Expected(s: Index, d: Document, done: set<string>, specifier: string): Option<Indexed> {
    if specifier in done && TakesOver(s, d, specifier) then Some(Indexed(d.source, d.models[specifier]))
    else Lookup(s.models, specifier)
  }

  lemma {:induction false} IndexedAll(s: Index, d: Document, models: map<string, Indexed>)
    requires forall k :: Lookup(models, k) == Expected(s, d, d.models.Keys, k)
    ensures models == IndexDocument(s, d).models
  {
    forall k ensures Lookup(models, k) == Lookup(IndexDocument(s, d).models, k) {
      assert Lookup(models, k) == Expected(s, d, d.models.Keys, k);
    }
    SameLookups(models, IndexDocument(s, d).models);
  }

  lemma {:induction false} SameLookups(a: map<string, Indexed>, b: map<string, Indexed>)
    requires forall k :: Lookup(a, k) == Lookup(b, k)
    ensures a == b
  {
    assert forall k :: k in a ==> Lookup(b, k).Some?;
    assert forall k :: k in b ==> Lookup(a, k).Some?;
    assert forall k :: k in a ==> Lookup(a, k) == Lookup(b, k);
  }

  lemma {:induction false} ExpectedOneMore(s: Index, d: Document, done: set<string>, specifier: string)
    requires specifier in d.models && specifier !in done
    ensures forall k :: Expected(s, d, done + {specifier}, k)
              == if k == specifier && TakesOver(s, d, k) then Some(Indexed(d.source, d.models[k]))
                 else Expected(s, d, done, k)
  {
  }

  method IndexModels(d: Document, s: Index) returns (t: Index)
    requires s.locals <= s.models.Keys
    ensures t == IndexDocument(s, d) && t.locals <= t.models.Keys
  {
    t := s;
    var left := d.models.Keys;
    while left != {}
      invariant left <= d.models.Keys
      invariant t.locals == if d.isLocal then s.locals + (d.models.Keys - left) else s.locals
      invariant forall k :: Lookup(t.models, k) == Expected(s, d, d.models.Keys - left, k)
      decreases left
    {
      var specifier :| specifier in left;
      assert Lookup(t.models, specifier) == Lookup(s.models, specifier);
      assert TakesOver(s, d, specifier) <==> d.isLocal || specifier !in t.locals;
      ExpectedOneMore(s, d, d.models.Keys - left, specifier);
      assert d.models.Keys - (left - {specifier}) == d.models.Keys - left + {specifier};
      left := left - {specifier};
      if specifier in t.models && specifier in t.locals && !d.isLocal {
        continue;
      }
      t := Index(t.models[specifier := Indexed(d.source, d.models[specifier])],
                 if d.isLocal then t.locals + {specifier} else t.locals);
    }
    assert d.models.Keys - left == d.models.Keys;
    IndexedAll(s, d, t.models);
  }

  function IndexAll(documents: seq<Document>): (s: Index)
    ensures s.locals <= s.models.Keys
  {
    if documents == [] then EMPTY else IndexDocument(IndexAll(documents[..|documents| - 1]), documents[|documents| - 1])
  }

  /** Document i is the last one of its sort that has the specifier. */
  predicate IsLast(documents: seq<Document>, specifier: string, isLocal: bool, i: nat) {
    && i < |documents| && documents[i].isLocal == isLocal && specifier in documents[i].models
    && forall j :: i < j < |documents| && documents[j].isLocal == isLocal ==> specifier !in documents[j].models
  }

  predicate LocallyKnown(documents: seq<Document>, specifier: string) {
    exists i :: 0 <= i < |documents| && documents[i].isLocal && specifier in documents[i].models
  }

  /** Whatever order documents load in, a specifier is served from the last local document that has it, and
      from the last remote one only when no local document has it. */
  lemma {:induction false} LocalTakesPrecedence(documents: seq<Document>, specifier: string) returns (i: nat)
    ensures specifier in IndexAll(documents).locals <==> LocallyKnown(documents, specifier)
    ensures specifier in IndexAll(documents).models
        <==> exists j :: 0 <= j < |documents| && specifier in documents[j].models
    ensures specifier in IndexAll(documents).models ==>
      && IsLast(documents, specifier, LocallyKnown(documents, specifier), i)
      && IndexAll(documents).models[specifier] == Indexed(documents[i].source, documents[i].models[specifier])
  {
    i := 0;
    if documents != [] {
      var before, d := documents[..|documents| - 1], documents[|documents| - 1];
      i := LocalTakesPrecedence(before, specifier);
      assert documents == before + [d];
      LastAfterPush(before, d, specifier, i);
      if TakesOver(IndexAll(before), d, specifier) {
        i := |documents| - 1;
      }
    }
  }

  lemma {:induction false} LastAfterPush(before: seq<Document>, d: Document, specifier: string, i: nat)
    ensures var documents := before + [d];
      && (LocallyKnown(documents, specifier)
          <==> LocallyKnown(before, specifier) || (d.isLocal && specifier in d.models))
      && (specifier in d.models ==> IsLast(documents, specifier, d.isLocal, |before|))
      && ((exists j :: 0 <= j < |documents| && specifier in documents[j].models)
          <==> specifier in d.models || exists j :: 0 <= j < |before| && specifier in before[j].models)
      && (forall isLocal :: IsLast(before, specifier, isLocal, i) && !(d.isLocal == isLocal && specifier in d.models)
            ==> IsLast(documents, specifier, isLocal, i))
  {
    var documents := before + [d];
    assert documents[|before|] == d && forall j :: 0 <= j < |before| ==> documents[j] == before[j];
  }

  /** What fetching or reading a document gives. */
  datatype Outcome = Unreachable | Invalid | Parsed(models: map<string, string>, includes: seq<string>)

  datatype File = File(path: string, outcome: Outcome)

  /** A file's own document; an unreadable or invalid file has none. */
  function FileDocument(file: File): seq<Document> {
    if file.outcome.Parsed? then [Document(file.path, file.outcome.models, true)] else []
  }

  function FileIncludes(file: File): seq<string> {
    if file.outcome.Parsed? then file.outcome.includes else []
  }

  function FileDocuments(files: seq<File>): seq<Document> {
    if files == [] then [] else FileDocuments(files[..|files| - 1]) + FileDocument(files[|files| - 1])
  }

  /** What the usable files include. */
  function IncludesOf(files: seq<File>): set<string> {
    if files == [] then {}
    else
      var includes := FileIncludes(files[|files| - 1]);
      IncludesOf(files[..|files| - 1]) + set url | url in includes
  }

  predicate AllParsed(files: seq<File>) { forall i :: 0 <= i < |files| ==> files[i].outcome.Parsed? }

  lemma {:induction false} FilesPush(files: seq<File>, i: nat)
    requires i < |files|
    ensures FileDocuments(files[..i + 1]) == FileDocuments(files[..i]) + FileDocument(files[i])
    ensures AllParsed(files[..i + 1]) <==> AllParsed(files[..i]) && files[i].outcome.Parsed?
  {
    assert files[..i + 1][..i] == files[..i];
  }

  function Locals(documents: seq<Document>): seq<Document> {
    if documents == [] then []
    else
      var d := documents[|documents| - 1];
      Locals(documents[..|documents| - 1]) + if d.isLocal then [d] else []
  }

  function Remotes(documents: seq<Document>): seq<Document> {
    if documents == [] then []
    else
      var d := documents[|documents| - 1];
      Remotes(documents[..|documents| - 1]) + if d.isLocal then [] else [d]
  }

  /** What the last document with the specifier says of it. */
  function LastSaid(documents: seq<Document>, specifier: string): Option<Indexed> {
    if documents == [] then None
    else
      var d := documents[|documents| - 1];
      if specifier in d.models then Some(Indexed(d.source, d.models[specifier]))
      else LastSaid(documents[..|documents| - 1], specifier)
  }

  lemma {:induction false} LastSaidPush(documents: seq<Document>, d: Document, specifier: string)
    ensures LastSaid(documents + [d], specifier)
      == if specifier in d.models then Some(Indexed(d.source, d.models[specifier])) else LastSaid(documents, specifier)
  {
    assert (documents + [d])[..|documents|] == documents;
  }

  lemma {:induction false} LookupBySort(documents: seq<Document>, specifier: string)
    ensures specifier in IndexAll(documents).locals <==> LastSaid(Locals(documents), specifier).Some?
    ensures Lookup(IndexAll(documents).models, specifier)
      == if LastSaid(Locals(documents), specifier).Some? then LastSaid(Locals(documents), specifier)
         else LastSaid(Remotes(documents), specifier)
  {
    if documents != [] {
      var before, d := documents[..|documents| - 1], documents[|documents| - 1];
      LookupBySort(before, specifier);
      LastSaidPush(if d.isLocal then Locals(before) else Remotes(before), d, specifier);
      assert Locals(before) + [] == Locals(before) && Remotes(before) + [] == Remotes(before);
    }
  }

  lemma {:induction false} SortsOfConcat(a: seq<Document>, b: seq<Document>)
    ensures Locals(a + b) == Locals(a) + Locals(b) && Remotes(a + b) == Remotes(a) + Remotes(b)
  {
    if b == [] {
      assert a + b == a;
    } else {
      assert (a + b)[..|a + b| - 1] == a + b[..|b| - 1];
      SortsOfConcat(a, b[..|b| - 1]);
    }
  }

  lemma {:induction false} SortsOfSorts(documents: seq<Document>)
    ensures Locals(Locals(documents)) == Locals(documents) && Remotes(Locals(documents)) == []
    ensures Remotes(Remotes(documents)) == Remotes(documents) && Locals(Remotes(documents)) == []
  {
    if documents != [] {
      var before, d := documents[..|documents| - 1], documents[|documents| - 1];
      SortsOfSorts(before);
      SortsOfConcat(Locals(before), if d.isLocal then [d] else []);
      SortsOfConcat(Remotes(before), if d.isLocal then [] else [d]);
      assert [d][..0] == [];
    }
  }

  /** How local and remote documents are interleaved does not show: all the remote ones first give the same. */
  lemma {:induction false} SortsDoNotMix(documents: seq<Document>)
    ensures IndexAll(documents).models == IndexAll(Remotes(documents) + Locals(documents)).models
  {
    var sorted := Remotes(documents) + Locals(documents);
    SortsOfConcat(Remotes(documents), Locals(documents));
    SortsOfSorts(documents);
    assert Locals(sorted) == Locals(documents) && Remotes(sorted) == Remotes(documents);
    forall k ensures Lookup(IndexAll(documents).models, k) == Lookup(IndexAll(sorted).models, k) {
      LookupBySort(documents, k);
      LookupBySort(sorted, k);
    }
    SameLookups(IndexAll(documents).models, IndexAll(sorted).models);
  }

  /** A URL and the depth at which it was fetched. */
  datatype Visit = Visit(url: string, depth: nat)

  function Urls(visits: seq<Visit>): set<string> { set v | v in visits :: v.url }

  /** The visits once an include is followed depth first, behind those made before: never deeper than the
      limit and no URL twice. */
  function Follow(fetch: string -> Outcome, maxIncludeDepth: nat, url: string, depth: nat, visits: seq<Visit>):
    seq<Visit>
    decreases if depth < maxIncludeDepth then maxIncludeDepth - depth else 0, 0, 0
  {
    if depth >= maxIncludeDepth || url in Urls(visits) then visits
    else
      var more := visits + [Visit(url, depth)];
      if fetch(url).Parsed? then FollowAll(fetch, maxIncludeDepth, fetch(url).includes, depth + 1, more) else more
  }

  function FollowAll(fetch: string -> Outcome, maxIncludeDepth: nat, includes: seq<string>, depth: nat,
                     visits: seq<Visit>): seq<Visit>
    decreases if depth < maxIncludeDepth then maxIncludeDepth - depth else 0, 1, |includes|
  {
    if includes == [] then visits
    else
      var before := FollowAll(fetch, maxIncludeDepth, includes[..|includes| - 1], depth, visits);
      Follow(fetch, maxIncludeDepth, includes[|includes| - 1], depth, before)
  }

  function FollowFiles(fetch: string -> Outcome, maxIncludeDepth: nat, files: seq<File>): seq<Visit> {
    if files == [] then []
    else
      var before := FollowFiles(fetch, maxIncludeDepth, files[..|files| - 1]);
      FollowAll(fetch, maxIncludeDepth, FileIncludes(files[|files| - 1]), 0, before)
  }

  /** A URL's own document, if it could be fetched and parsed. */
  function RemoteDocument(fetch: string -> Outcome, url: string): seq<Document> {
    if fetch(url).Parsed? then [Document(url, fetch(url).models, false)] else []
  }

  /** The documents of the visited URLs, in the order of the visits. */
  function DocumentsOf(fetch: string -> Outcome, visits: seq<Visit>): seq<Document> {
    if visits == [] then []
    else DocumentsOf(fetch, visits[..|visits| - 1]) + RemoteDocument(fetch, visits[|visits| - 1].url)
  }

  function UnreachableOf(fetch: string -> Outcome, visits: seq<Visit>): seq<string> {
    if visits == [] then []
    else
      var url := visits[|visits| - 1].url;
      UnreachableOf(fetch, visits[..|visits| - 1]) + if fetch(url).Unreachable? then [url] else []
  }

  predicate MeetsInvalid(fetch: string -> Outcome, visits: seq<Visit>) {
    exists v :: v in visits && fetch(v.url).Invalid?
  }

  /** Nothing stops the load: an invalid file or include matters only where it is fatal. */
  predicate Loads(fetch: string -> Outcome, maxIncludeDepth: nat, invalidIsFatal: bool, files: seq<File>) {
    invalidIsFatal ==> AllParsed(files) && !MeetsInvalid(fetch, FollowFiles(fetch, maxIncludeDepth, files))
  }

  /** The catalog of the files: what they lead to in the order of the visits, with the files' own documents
      over it. */
  function CatalogOf(fetch: string -> Outcome, maxIncludeDepth: nat, files: seq<File>): map<string, Indexed> {
    IndexAll(DocumentsOf(fetch, FollowFiles(fetch, maxIncludeDepth, files)) + FileDocuments(files)).models
  }

  lemma {:induction false} DocumentsPush(fetch: string -> Outcome, visits: seq<Visit>, v: Visit)
    ensures DocumentsOf(fetch, visits + [v]) == DocumentsOf(fetch, visits) + RemoteDocument(fetch, v.url)
    ensures UnreachableOf(fetch, visits + [v])
      == UnreachableOf(fetch, visits) + if fetch(v.url).Unreachable? then [v.url] else []
    ensures Urls(visits + [v]) == Urls(visits) + {v.url}
    ensures MeetsInvalid(fetch, visits + [v]) <==> MeetsInvalid(fetch, visits) || fetch(v.url).Invalid?
  {
    assert (visits + [v])[..|visits|] == visits;
    assert forall u :: u in visits + [v] <==> u in visits || u == v;
  }

  lemma {:induction false} FollowOneMore(fetch: string -> Outcome, maxIncludeDepth: nat, includes: seq<string>, i: nat,
                                         depth: nat, visits: seq<Visit>)
    requires i < |includes|
    ensures
      var before := FollowAll(fetch, maxIncludeDepth, includes[..i], depth, visits);
      FollowAll(fetch, maxIncludeDepth, includes[..i + 1], depth, visits)
        == Follow(fetch, maxIncludeDepth, includes[i], depth, before)
  {
    assert includes[..i + 1][..i] == includes[..i];
  }

  lemma {:induction false} FollowFilesOneMore(fetch: string -> Outcome, maxIncludeDepth: nat, files: seq<File>, i: nat)
    requires i < |files|
    ensures
      var before := FollowFiles(fetch, maxIncludeDepth, files[..i]);
      FollowFiles(fetch, maxIncludeDepth, files[..i + 1])
        == FollowAll(fetch, maxIncludeDepth, FileIncludes(files[i]), 0, before)
  {
    assert files[..i + 1][..i] == files[..i];
  }

  // Following only adds visits, so an invalid document met on the way is met in the end.

  lemma {:induction false} FollowGrows(fetch: string -> Outcome, maxIncludeDepth: nat, url: string, depth: nat,
                                       visits: seq<Visit>)
    ensures visits <= Follow(fetch, maxIncludeDepth, url, depth, visits)
    decreases if depth < maxIncludeDepth then maxIncludeDepth - depth else 0, 0, 0
  {
    if depth < maxIncludeDepth && fetch(url).Parsed? {
      FollowAllGrows(fetch, maxIncludeDepth, fetch(url).includes, depth + 1, visits + [Visit(url, depth)], 0);
    }
  }

  lemma {:induction false} FollowAllGrows(fetch: string -> Outcome, maxIncludeDepth: nat, includes: seq<string>,
                                          depth: nat, visits: seq<Visit>, i: nat)
    requires i <= |includes|
    ensures FollowAll(fetch, maxIncludeDepth, includes[..i], depth, visits)
      <= FollowAll(fetch, maxIncludeDepth, includes, depth, visits)
    ensures i == 0 ==> visits <= FollowAll(fetch, maxIncludeDepth, includes, depth, visits)
    decreases if depth < maxIncludeDepth then maxIncludeDepth - depth else 0, 1, |includes|
  {
    if i == |includes| {
      assert includes[..i] == includes;
    } else {
      var front := includes[..|includes| - 1];
      FollowAllGrows(fetch, maxIncludeDepth, front, depth, visits, i);
      assert front[..i] == includes[..i];
      FollowGrows(fetch, maxIncludeDepth, includes[|includes| - 1], depth,
                  FollowAll(fetch, maxIncludeDepth, front, depth, visits));
    }
  }

  lemma {:induction false} FollowFilesGrows(fetch: string -> Outcome, maxIncludeDepth: nat, files: seq<File>, i: nat)
    requires i <= |files|
    ensures FollowFiles(fetch, maxIncludeDepth, files[..i]) <= FollowFiles(fetch, maxIncludeDepth, files)
  {
    if i == |files| {
      assert files[..i] == files;
    } else {
      var front := files[..|files| - 1];
      FollowFilesGrows(fetch, maxIncludeDepth, front, i);
      assert front[..i] == files[..i];
      FollowAllGrows(fetch, maxIncludeDepth, FileIncludes(files[|files| - 1]), 0,
                     FollowFiles(fetch, maxIncludeDepth, front), 0);
    }
  }

  // What the visits are: exactly what the files lead to.

  /** A file includes the URL, or a document one level up does. */
  predicate Reached(fetch: string -> Outcome, roots: set<string>, visits: seq<Visit>, url: string, depth: nat) {
    || (depth == 0 && url in roots)
    || exists v :: v in visits && fetch(v.url).Parsed? && url in fetch(v.url).includes && depth == v.depth + 1
  }

  predicate OnlyReached(fetch: string -> Outcome, maxIncludeDepth: nat, roots: set<string>, visits: seq<Visit>) {
    && (forall v :: v in visits ==> v.depth < maxIncludeDepth && Reached(fetch, roots, visits, v.url, v.depth))
    && (forall i, j :: 0 <= i < j < |visits| ==> visits[i].url != visits[j].url)
  }

  /** The includes of the document are visited too, unless they would be too deep. */
  predicate Followed(fetch: string -> Outcome, maxIncludeDepth: nat, visits: seq<Visit>, v: Visit) {
    if fetch(v.url).Parsed? && v.depth + 1 < maxIncludeDepth then
      forall child :: child in fetch(v.url).includes ==> child in Urls(visits)
    else true
  }

  predicate FollowedFrom(fetch: string -> Outcome, maxIncludeDepth: nat, visits: seq<Visit>, k: nat) {
    forall i :: k <= i < |visits| ==> Followed(fetch, maxIncludeDepth, visits, visits[i])
  }

  lemma {:induction false} ReachedLater(fetch: string -> Outcome, roots: set<string>, visits: seq<Visit>,
                                        later: seq<Visit>, url: string, depth: nat)
    requires Reached(fetch, roots, visits, url, depth) && visits <= later
    ensures Reached(fetch, roots, later, url, depth)
  {
    if !(depth == 0 && url in roots) {
      var v :| v in visits && fetch(v.url).Parsed? && url in fetch(v.url).includes && depth == v.depth + 1;
      assert v in later;
    }
  }

  lemma {:induction false} VisitKeepsReached(fetch: string -> Outcome, maxIncludeDepth: nat, roots: set<string>,
                                             visits: seq<Visit>, url: string, depth: nat)
    requires OnlyReached(fetch, maxIncludeDepth, roots, visits) && url !in Urls(visits)
    requires depth < maxIncludeDepth && Reached(fetch, roots, visits, url, depth)
    ensures OnlyReached(fetch, maxIncludeDepth, roots, visits + [Visit(url, depth)])
  {
    var more := visits + [Visit(url, depth)];
    forall v | v in more ensures v.depth < maxIncludeDepth && Reached(fetch, roots, more, v.url, v.depth) {
      ReachedLater(fetch, roots, visits, more, v.url, v.depth);
    }
  }

  /** Following an include that was led to visits only what it leads to. */
  lemma {:induction false} FollowOnlyReaches(fetch: string -> Outcome, maxIncludeDepth: nat, roots: set<string>,
                                             url: string, depth: nat, visits: seq<Visit>)
    requires OnlyReached(fetch, maxIncludeDepth, roots, visits) && Reached(fetch, roots, visits, url, depth)
    ensures OnlyReached(fetch, maxIncludeDepth, roots, Follow(fetch, maxIncludeDepth, url, depth, visits))
    decreases if depth < maxIncludeDepth then maxIncludeDepth - depth else 0, 0, 0
  {
    if depth < maxIncludeDepth && url !in Urls(visits) {
      var more := visits + [Visit(url, depth)];
      VisitKeepsReached(fetch, maxIncludeDepth, roots, visits, url, depth);
      if fetch(url).Parsed? {
        assert Visit(url, depth) in more;
        FollowAllOnlyReaches(fetch, maxIncludeDepth, roots, fetch(url).includes, depth + 1, more);
      }
    }
  }

  lemma {:induction false} FollowAllOnlyReaches(fetch: string -> Outcome, maxIncludeDepth: nat, roots: set<string>,
                                                includes: seq<string>, depth: nat, visits: seq<Visit>)
    requires OnlyReached(fetch, maxIncludeDepth, roots, visits)
    requires forall url :: url in includes ==> Reached(fetch, roots, visits, url, depth)
    ensures OnlyReached(fetch, maxIncludeDepth, roots, FollowAll(fetch, maxIncludeDepth, includes, depth, visits))
    decreases if depth < maxIncludeDepth then maxIncludeDepth - depth else 0, 1, |includes|
  {
    if includes != [] {
      var front, last := includes[..|includes| - 1], includes[|includes| - 1];
      var before := FollowAll(fetch, maxIncludeDepth, front, depth, visits);
      FollowAllOnlyReaches(fetch, maxIncludeDepth, roots, front, depth, visits);
      FollowAllGrows(fetch, maxIncludeDepth, front, depth, visits, 0);
      ReachedLater(fetch, roots, visits, before, last, depth);
      FollowOnlyReaches(fetch, maxIncludeDepth, roots, last, depth, before);
    }
  }

  lemma {:induction false} FollowedLater(fetch: string -> Outcome, maxIncludeDepth: nat, visits: seq<Visit>,
                                         later: seq<Visit>, k: nat)
    requires FollowedFrom(fetch, maxIncludeDepth, visits, k) && visits <= later
    requires FollowedFrom(fetch, maxIncludeDepth, later, |visits|)
    ensures FollowedFrom(fetch, maxIncludeDepth, later, k)
  {
    UrlsGrow(visits, later);
    forall i | k <= i < |later| ensures Followed(fetch, maxIncludeDepth, later, later[i]) {
      assert i < |visits| ==> Followed(fetch, maxIncludeDepth, visits, visits[i]);
    }
  }

  lemma {:induction false} UrlsGrow(visits: seq<Visit>, later: seq<Visit>)
    requires visits <= later
    ensures Urls(visits) <= Urls(later)
  {
    assert forall v :: v in visits ==> v in later;
  }

  /** Following an include visits it and whatever it leads to, down to the limit. */
  lemma {:induction false} FollowReachesAll(fetch: string -> Outcome, maxIncludeDepth: nat, url: string, depth: nat,
                                            visits: seq<Visit>)
    ensures var all := Follow(fetch, maxIncludeDepth, url, depth, visits);
      && FollowedFrom(fetch, maxIncludeDepth, all, |visits|)
      && (depth < maxIncludeDepth ==> url in Urls(all))
    decreases if depth < maxIncludeDepth then maxIncludeDepth - depth else 0, 0, 0
  {
    if depth < maxIncludeDepth && url !in Urls(visits) {
      var v := Visit(url, depth);
      DocumentsPush(fetch, visits, v);
      if fetch(url).Parsed? {
        var all := FollowAll(fetch, maxIncludeDepth, fetch(url).includes, depth + 1, visits + [v]);
        FollowAllGrows(fetch, maxIncludeDepth, fetch(url).includes, depth + 1, visits + [v], 0);
        FollowAllReachesAll(fetch, maxIncludeDepth, fetch(url).includes, depth + 1, visits + [v]);
        UrlsGrow(visits + [v], all);
        assert all[|visits|] == v && Followed(fetch, maxIncludeDepth, all, v);
        assert FollowedFrom(fetch, maxIncludeDepth, all, |visits| + 1);
      }
    }
  }

  lemma {:induction false} FollowAllReachesAll(fetch: string -> Outcome, maxIncludeDepth: nat, includes: seq<string>,
                                               depth: nat, visits: seq<Visit>)
    ensures var all := FollowAll(fetch, maxIncludeDepth, includes, depth, visits);
      && FollowedFrom(fetch, maxIncludeDepth, all, |visits|)
      && (depth < maxIncludeDepth ==> forall url :: url in includes ==> url in Urls(all))
    decreases if depth < maxIncludeDepth then maxIncludeDepth - depth else 0, 1, |includes|
  {
    if includes != [] {
      var front, last := includes[..|includes| - 1], includes[|includes| - 1];
      var before := FollowAll(fetch, maxIncludeDepth, front, depth, visits);
      var all := Follow(fetch, maxIncludeDepth, last, depth, before);
      FollowAllReachesAll(fetch, maxIncludeDepth, front, depth, visits);
      FollowReachesAll(fetch, maxIncludeDepth, last, depth, before);
      FollowGrows(fetch, maxIncludeDepth, last, depth, before);
      FollowedLater(fetch, maxIncludeDepth, before, all, |visits|);
      UrlsGrow(before, all);
      assert forall url :: url in includes ==> url in front || url == last;
    }
  }

  /** The URLs visited are exactly what the files lead to, each once, at the depth where it is first met:
      nothing else, nothing too deep, and of every document above the limit all the includes. */
  lemma {:induction false} VisitsAreWhatFilesLeadTo(fetch: string -> Outcome, maxIncludeDepth: nat, files: seq<File>)
    ensures var visits := FollowFiles(fetch, maxIncludeDepth, files);
      && OnlyReached(fetch, maxIncludeDepth, IncludesOf(files), visits)
      && FollowedFrom(fetch, maxIncludeDepth, visits, 0)
      && (maxIncludeDepth > 0 ==> IncludesOf(files) <= Urls(visits))
  {
    if files != [] {
      var front, includes := files[..|files| - 1], FileIncludes(files[|files| - 1]);
      var before := FollowFiles(fetch, maxIncludeDepth, front);
      var all := FollowAll(fetch, maxIncludeDepth, includes, 0, before);
      VisitsAreWhatFilesLeadTo(fetch, maxIncludeDepth, front);
      MoreRootsKeepReached(fetch, maxIncludeDepth, IncludesOf(front), IncludesOf(files), before);
      FollowAllOnlyReaches(fetch, maxIncludeDepth, IncludesOf(files), includes, 0, before);
      FollowAllReachesAll(fetch, maxIncludeDepth, includes, 0, before);
      FollowAllGrows(fetch, maxIncludeDepth, includes, 0, before, 0);
      FollowedLater(fetch, maxIncludeDepth, before, all, 0);
      UrlsGrow(before, all);
    }
  }

  lemma {:induction false} MoreRootsKeepReached(fetch: string -> Outcome, maxIncludeDepth: nat, roots: set<string>,
                                                more: set<string>, visits: seq<Visit>)
    requires OnlyReached(fetch, maxIncludeDepth, roots, visits) && roots <= more
    ensures OnlyReached(fetch, maxIncludeDepth, more, visits)
  {
  }

  /** The documents are those of the parsed URLs, and the unreachable are those that could not be fetched. */
  lemma {:induction false} VisitsAreAccountedFor(fetch: string -> Outcome, visits: seq<Visit>)
    ensures forall d :: d in DocumentsOf(fetch, visits)
              <==> && d.source in Urls(visits) && fetch(d.source).Parsed?
                   && d == Document(d.source, fetch(d.source).models, false)
    ensures forall url :: url in UnreachableOf(fetch, visits) <==> url in Urls(visits) && fetch(url).Unreachable?
  {
    if visits != [] {
      var front, v := visits[..|visits| - 1], visits[|visits| - 1];
      VisitsAreAccountedFor(fetch, front);
      assert visits == front + [v];
      DocumentsPush(fetch, front, v);
    }
  }

  // What the catalog serves.

  /** File i is the last usable one that has the specifier. */
  predicate IsLastFile(files: seq<File>, specifier: string, i: nat) {
    && i < |files| && files[i].outcome.Parsed? && specifier in files[i].outcome.models
    && forall j :: i < j < |files| && files[j].outcome.Parsed? ==> specifier !in files[j].outcome.models
  }

  /** Visit i is the last of a document that has the specifier. */
  predicate IsLastVisit(fetch: string -> Outcome, visits: seq<Visit>, specifier: string, i: nat) {
    && i < |visits| && fetch(visits[i].url).Parsed? && specifier in fetch(visits[i].url).models
    && forall j :: i < j < |visits| && fetch(visits[j].url).Parsed? ==> specifier !in fetch(visits[j].url).models
  }

  lemma {:induction false} LastFileBefore(files: seq<File>, specifier: string, k: nat)
    requires files != []
    requires var last := files[|files| - 1].outcome; !(last.Parsed? && specifier in last.models)
    ensures IsLastFile(files, specifier, k) <==> IsLastFile(files[..|files| - 1], specifier, k)
  {
  }

  lemma {:induction false} LastVisitBefore(fetch: string -> Outcome, visits: seq<Visit>, specifier: string, k: nat)
    requires visits != []
    requires var last := fetch(visits[|visits| - 1].url); !(last.Parsed? && specifier in last.models)
    ensures IsLastVisit(fetch, visits, specifier, k) <==> IsLastVisit(fetch, visits[..|visits| - 1], specifier, k)
  {
  }

  lemma {:induction false} DocumentsLast(fetch: string -> Outcome, visits: seq<Visit>, specifier: string)
    requires visits != []
    ensures var before, url := visits[..|visits| - 1], visits[|visits| - 1].url;
      LastSaid(DocumentsOf(fetch, visits), specifier)
        == if fetch(url).Parsed? && specifier in fetch(url).models then Some(Indexed(url, fetch(url).models[specifier]))
           else LastSaid(DocumentsOf(fetch, before), specifier)
  {
    var before, url := visits[..|visits| - 1], visits[|visits| - 1].url;
    if fetch(url).Parsed? {
      LastSaidPush(DocumentsOf(fetch, before), RemoteDocument(fetch, url)[0], specifier);
    } else {
      assert DocumentsOf(fetch, before) + [] == DocumentsOf(fetch, before);
    }
  }

  lemma {:induction false} SaidByFiles(files: seq<File>, specifier: string) returns (i: nat)
    ensures if exists k: nat :: IsLastFile(files, specifier, k) then
              && IsLastFile(files, specifier, i)
              && LastSaid(FileDocuments(files), specifier)
                 == Some(Indexed(files[i].path, files[i].outcome.models[specifier]))
            else LastSaid(FileDocuments(files), specifier).None?
  {
    i := 0;
    if files != [] {
      var before, last := files[..|files| - 1], files[|files| - 1];
      if last.outcome.Parsed? {
        LastSaidPush(FileDocuments(before), FileDocument(last)[0], specifier);
      } else {
        assert FileDocuments(before) + [] == FileDocuments(before);
      }
      if last.outcome.Parsed? && specifier in last.outcome.models {
        i := |before|;
        assert IsLastFile(files, specifier, i);
      } else {
        i := SaidByFiles(before, specifier);
        forall k: nat { LastFileBefore(files, specifier, k); }
      }
    }
  }

  lemma {:induction false} SaidByVisits(fetch: string -> Outcome, visits: seq<Visit>, specifier: string)
    returns (i: nat)
    ensures if exists k: nat :: IsLastVisit(fetch, visits, specifier, k) then
              && IsLastVisit(fetch, visits, specifier, i)
              && LastSaid(DocumentsOf(fetch, visits), specifier)
                 == Some(Indexed(visits[i].url, fetch(visits[i].url).models[specifier]))
            else LastSaid(DocumentsOf(fetch, visits), specifier).None?
  {
    i := 0;
    if visits != [] {
      var before, last := visits[..|visits| - 1], visits[|visits| - 1];
      DocumentsLast(fetch, visits, specifier);
      if fetch(last.url).Parsed? && specifier in fetch(last.url).models {
        i := |before|;
        assert IsLastVisit(fetch, visits, specifier, i);
      } else {
        i := SaidByVisits(fetch, before, specifier);
        forall k: nat { LastVisitBefore(fetch, visits, specifier, k); }
      }
    }
  }

  lemma {:induction false} FilesAreLocal(files: seq<File>)
    ensures Locals(FileDocuments(files)) == FileDocuments(files) && Remotes(FileDocuments(files)) == []
  {
    if files != [] {
      var before, last := files[..|files| - 1], files[|files| - 1];
      FilesAreLocal(before);
      SortsOfConcat(FileDocuments(before), FileDocument(last));
      OneSort(FileDocument(last));
    }
  }

  lemma {:induction false} OneSort(documents: seq<Document>)
    requires |documents| <= 1
    ensures documents != [] && documents[0].isLocal ==> Locals(documents) == documents && Remotes(documents) == []
    ensures documents != [] && !documents[0].isLocal ==> Locals(documents) == [] && Remotes(documents) == documents
    ensures documents == [] ==> Locals(documents) == [] && Remotes(documents) == []
  {
    if documents != [] {
      assert documents[..|documents| - 1] == [] && documents == [documents[0]];
    }
  }

  lemma {:induction false} VisitsAreRemote(fetch: string -> Outcome, visits: seq<Visit>)
    ensures Locals(DocumentsOf(fetch, visits)) == []
        && Remotes(DocumentsOf(fetch, visits)) == DocumentsOf(fetch, visits)
  {
    if visits != [] {
      var before, last := visits[..|visits| - 1], visits[|visits| - 1];
      VisitsAreRemote(fetch, before);
      SortsOfConcat(DocumentsOf(fetch, before), RemoteDocument(fetch, last.url));
      OneSort(RemoteDocument(fetch, last.url));
    }
  }

  /** A specifier is served as the last usable file that has it says, under that file's path; without such a file as
      the last document fetched that has it says, under its URL; and otherwise not at all. */
  lemma {:induction false} CatalogServes(fetch: string -> Outcome, maxIncludeDepth: nat, files: seq<File>,
                                         specifier: string)
    returns (file: nat, visit: nat)
    ensures var models, visits := CatalogOf(fetch, maxIncludeDepth, files), FollowFiles(fetch, maxIncludeDepth, files);
      if exists k: nat :: IsLastFile(files, specifier, k) then
        && IsLastFile(files, specifier, file)
        && Lookup(models, specifier) == Some(Indexed(files[file].path, files[file].outcome.models[specifier]))
      else if exists k: nat :: IsLastVisit(fetch, visits, specifier, k) then
        && IsLastVisit(fetch, visits, specifier, visit)
        && Lookup(models, specifier)
           == Some(Indexed(visits[visit].url, fetch(visits[visit].url).models[specifier]))
      else specifier !in models
  {
    var visits := FollowFiles(fetch, maxIncludeDepth, files);
    var remotes, locals := DocumentsOf(fetch, visits), FileDocuments(files);
    file := SaidByFiles(files, specifier);
    visit := SaidByVisits(fetch, visits, specifier);
    FilesAreLocal(files);
    VisitsAreRemote(fetch, visits);
    SortsOfConcat(remotes, locals);
    assert [] + locals == locals && remotes + [] == remotes;
    LookupBySort(remotes + locals, specifier);
  }

  /** One load of the directory: what is indexed so far, and the documents it came from. */
  class Loader {
    const fetch: string -> Outcome
    const maxIncludeDepth: nat
    const invalidIsFatal: bool
    var visited: set<string>
    var index: Index
    var unreachable: seq<string>
    ghost var documents: seq<Document>
    ghost var visits: seq<Visit>

    /** What is indexed and noted is what the visits gave, in their order. */
    ghost predicate Valid()
      reads this
    {
      && visited == Urls(visits) && unreachable == UnreachableOf(fetch, visits)
      && index == IndexAll(documents) && Remotes(documents) == DocumentsOf(fetch, visits)
    }

    /** Nothing fatal has been met. */
    ghost predicate Clean()
      reads this
    {
      invalidIsFatal ==> !MeetsInvalid(fetch, visits)
    }

    constructor (fetch: string -> Outcome, maxIncludeDepth: nat, invalidIsFatal: bool)
      ensures Valid() && documents == [] && visits == []
      ensures this.fetch == fetch && this.maxIncludeDepth == maxIncludeDepth && this.invalidIsFatal == invalidIsFatal
    {
      this.fetch, this.maxIncludeDepth, this.invalidIsFatal := fetch, maxIncludeDepth, invalidIsFatal;
      visited, index, unreachable, documents, visits := {}, EMPTY, [], [], [];
    }

    method Push(d: Document)
      requires index == IndexAll(documents)
      modifies this`index, this`documents
      ensures documents == old(documents) + [d] && index == IndexAll(documents)
      ensures Locals(documents) == Locals(old(documents)) + if d.isLocal then [d] else []
      ensures Remotes(documents) == Remotes(old(documents)) + if d.isLocal then [] else [d]
    {
      assert (documents + [d])[..|documents|] == documents;
      index := IndexModels(d, index);
      documents := documents + [d];
    }

    /** Fetches one URL and indexes what it gives. */
    method FetchAndIndex(url: string, ghost depth: nat)
      requires Valid()
      modifies this
      ensures Valid() && visits == old(visits) + [Visit(url, depth)]
      ensures Locals(documents) == Locals(old(documents))
    {
      ghost var more := visits + [Visit(url, depth)];
      DocumentsPush(fetch, visits, Visit(url, depth));
      visited := visited + {url};
      match fetch(url) {
        case Unreachable =>
          unreachable := unreachable + [url];
        case Invalid =>
        case Parsed(models, _) =>
          Push(Document(url, models, false));
      }
      assert Remotes(documents) == DocumentsOf(fetch, more);
      assert unreachable == UnreachableOf(fetch, more);
      visits := more;
    }

    /** Loads the include and everything it includes. It gives up exactly if that meets an invalid document
        where one is fatal. */
    method ResolveIncludes(url: string, depth: nat) returns (ok: bool)
      requires Valid() && Clean()
      modifies this
      ensures Valid() && Locals(documents) == Locals(old(documents))
      ensures ok <==> !invalidIsFatal || !MeetsInvalid(fetch, Follow(fetch, maxIncludeDepth, url, depth, old(visits)))
      ensures ok ==> visits == Follow(fetch, maxIncludeDepth, url, depth, old(visits))
      decreases maxIncludeDepth - depth, 0
    {
      if depth >= maxIncludeDepth || url in visited {
        return true;
      }
      DocumentsPush(fetch, visits, Visit(url, depth));
      FetchAndIndex(url, depth);
      match fetch(url) {
        case Unreachable =>
          return true;
        case Invalid =>
          return !invalidIsFatal;
        case Parsed(_, includes) =>
          ok := ResolveAll(includes, depth + 1);
      }
    }

    /** Loads the includes of a document in order, and stops at the first fatal one. */
    method ResolveAll(includes: seq<string>, depth: nat) returns (ok: bool)
      requires Valid() && Clean() && depth <= maxIncludeDepth
      modifies this
      ensures Valid() && Locals(documents) == Locals(old(documents))
      ensures ok
        <==> !invalidIsFatal || !MeetsInvalid(fetch, FollowAll(fetch, maxIncludeDepth, includes, depth, old(visits)))
      ensures ok ==> visits == FollowAll(fetch, maxIncludeDepth, includes, depth, old(visits))
      decreases maxIncludeDepth - depth, 1
    {
      for i := 0 to |includes|
        invariant Valid() && Clean() && Locals(documents) == Locals(old(documents))
        invariant visits == FollowAll(fetch, maxIncludeDepth, includes[..i], depth, old(visits))
      {
        FollowOneMore(fetch, maxIncludeDepth, includes, i, depth, old(visits));
        ok := ResolveIncludes(includes[i], depth);
        if !ok {
          FollowAllGrows(fetch, maxIncludeDepth, includes, depth, old(visits), i + 1);
          return;
        }
      }
      assert includes[..|includes|] == includes;
      return true;
    }

    /** Indexes one local file and loads its includes; an unusable file is fatal or skipped. */
    method LoadFile(file: File) returns (ok: bool)
      requires Valid() && Clean()
      modifies this
      ensures ok
        <==> || !invalidIsFatal
             || (&& file.outcome.Parsed?
                 && !MeetsInvalid(fetch, FollowAll(fetch, maxIncludeDepth, FileIncludes(file), 0, old(visits))))
      ensures ok ==> Valid() && Locals(documents) == Locals(old(documents)) + FileDocument(file)
      ensures ok ==> visits == FollowAll(fetch, maxIncludeDepth, FileIncludes(file), 0, old(visits))
    {
      if !file.outcome.Parsed? {
        return !invalidIsFatal;
      }
      var Parsed(models, includes) := file.outcome;
      Push(Document(file.path, models, true));
      ok := ResolveAll(includes, 0);
    }

    /** Loads the files in order, each followed by everything it includes. */
    method LoadFiles(files: seq<File>) returns (ok: bool)
      requires Valid() && documents == [] && visits == []
      modifies this
      ensures ok <==> Loads(fetch, maxIncludeDepth, invalidIsFatal, files)
      ensures ok ==> Valid() && Locals(documents) == FileDocuments(files)
      ensures ok ==> visits == FollowFiles(fetch, maxIncludeDepth, files)
    {
      for i := 0 to |files|
        invariant Valid() && Clean() && Locals(documents) == FileDocuments(files[..i])
        invariant visits == FollowFiles(fetch, maxIncludeDepth, files[..i])
        invariant invalidIsFatal ==> AllParsed(files[..i])
      {
        FilesPush(files, i);
        FollowFilesOneMore(fetch, maxIncludeDepth, files, i);
        ok := LoadFile(files[i]);
        if !ok {
          FollowFilesGrows(fetch, maxIncludeDepth, files, i + 1);
          return;
        }
      }
      assert files[..|files|] == files;
      return true;
    }
  }

  /** What the directory holds; it may be unset, or unreadable. */
  datatype Directory = Unset | Unreadable | Holds(files: seq<File>)

  /** Something the directory leads to could not be read. */
  predicate Incomplete(directory: Directory, fetch: string -> Outcome, maxIncludeDepth: nat) {
    match directory
    case Unset => false
    case Unreadable => true
    case Holds(files) => exists v :: v in FollowFiles(fetch, maxIncludeDepth, files) && fetch(v.url).Unreachable?
  }

  class Catalog {
    var models: map<string, Indexed>
    var refreshed: bool
    var failing: bool

    constructor ()
      ensures models == map[] && !refreshed
    {
      models, refreshed, failing := map[], false, false;
    }

    /** Either the whole new catalog is served or the old one stays, and which of the two is determined: the old
        one stays exactly if the load gives up, or once there is one and a source could not be reached. */
    method Refresh(directory: Directory, fetch: string -> Outcome, maxIncludeDepth: nat, invalidIsFatal: bool)
      returns (ok: bool)
      modifies this
      ensures ok
        <==> && (directory.Holds? ==> Loads(fetch, maxIncludeDepth, invalidIsFatal, directory.files))
             && !(old(refreshed) && Incomplete(directory, fetch, maxIncludeDepth))
      ensures ok ==> refreshed && failing == Incomplete(directory, fetch, maxIncludeDepth)
      ensures ok
        ==> models == if directory.Holds? then CatalogOf(fetch, maxIncludeDepth, directory.files) else map[]
      ensures !ok ==> models == old(models) && refreshed == old(refreshed) && failing
    {
      var loader := new Loader(fetch, maxIncludeDepth, invalidIsFatal);
      if directory.Holds? {
        ok := loader.LoadFiles(directory.files);
        if !ok {
          failing := true;
          return;
        }
        SortsDoNotMix(loader.documents);
      }
      var incomplete := directory.Unreadable? || loader.unreachable != [];
      IncompleteIff(directory, fetch, maxIncludeDepth, loader.visits);
      if incomplete && refreshed {
        failing, ok := true, false;
        return;
      }
      models, refreshed, failing, ok := loader.index.models, true, incomplete, true;
    }
  }

  lemma {:induction false} IncompleteIff(directory: Directory, fetch: string -> Outcome, maxIncludeDepth: nat,
                                         visits: seq<Visit>)
    requires visits == if directory.Holds? then FollowFiles(fetch, maxIncludeDepth, directory.files) else []
    ensures Incomplete(directory, fetch, maxIncludeDepth)
      <==> directory.Unreadable? || UnreachableOf(fetch, visits) != []
  {
    VisitsAreAccountedFor(fetch, visits);
    var unreachable := UnreachableOf(fetch, visits);
    if unreachable != [] {
      assert unreachable[0] in unreachable;
    }
  }
}
