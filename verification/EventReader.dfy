/** How the gateway reads a backend's event stream: the buffer is cut at every "\n\n", chunk by chunk. */
module EventReader {
  import opened Options
  import opened Text

  datatype Parsed = Parsed(eventType: string, id: Option<string>, data: string)

  /** Position of the first ':', or the length. */
  function Colon(line: string): (i: nat)
    ensures i <= |line|
    ensures i < |line| ==> line[i] == ':'
  {
    if line == [] || line[0] == ':' then 0 else 1 + Colon(line[1..])
  }

  datatype Fields = Fields(eventType: string, id: Option<string>, data: string)

  function ReadField(f: Fields, line: string): Fields {
    var i := Colon(line);
    if i == |line| then f
    else
      var name, value := line[..i], Trim(line[i + 1..]);
      if name == "data" then f.(data := f.data + value + "\n")
      else if name == "event" then f.(eventType := value)
      else if name == "id" then f.(id := Some(value))
      else f
  }

  function ReadFields(lines: seq<string>): Fields {
    if lines == [] then Fields("message", None, "") else ReadField(ReadFields(Front(lines)), Last(lines))
  }

  function ProcessEvent(event: string): Parsed {
    var f := ReadFields(Split(event, '\n'));
    Parsed(f.eventType, f.id, Trim(f.data))
  }

  predicate BoundaryAt(s: string, i: nat) { i + 1 < |s| && s[i] == '\n' && s[i + 1] == '\n' }

  /** Where the first blank line starts, or None. */
  function IndexOfBoundary(s: string): (at: Option<nat>)
    ensures at.Some? ==> BoundaryAt(s, at.value) && forall j: nat :: j < at.value ==> !BoundaryAt(s, j)
    ensures at.None? ==> forall j: nat :: !BoundaryAt(s, j)
    decreases |s|
  {
    if |s| < 2 then None
    else if BoundaryAt(s, 0) then Some(0)
    else
      var rest := IndexOfBoundary(s[1..]);
      assert forall j: nat :: j + 1 < |s| ==> (BoundaryAt(s[1..], j) <==> BoundaryAt(s, j + 1));
      assert forall j: nat :: j > 0 && BoundaryAt(s, j) ==> BoundaryAt(s[1..], j - 1);
      match rest
      case None => None
      case Some(i) => Some(i + 1)
  }

  /** The complete events of a text, and what is left. */
  function Drain(s: string): (result: (seq<string>, string))
    decreases |s|
  {
    match IndexOfBoundary(s)
    case None => ([], s)
    case Some(i) =>
      var (events, rest) := Drain(s[i + 2..]);
      ([s[..i]] + events, rest)
  }

  function DrainAfter(events: seq<string>, s: string): (seq<string>, string) {
    (events + Drain(s).0, Drain(s).1)
  }

  lemma {:induction false} NothingDrained(s: string)
    ensures DrainAfter([], s) == Drain(s)
  {
    assert [] + Drain(s).0 == Drain(s).0;
  }

  lemma {:induction false} DrainOneMore(events: seq<string>, s: string, i: nat)
    requires IndexOfBoundary(s) == Some(i)
    ensures DrainAfter(events, s) == DrainAfter(events + [s[..i]], s[i + 2..])
  {
    assert events + ([s[..i]] + Drain(s[i + 2..]).0) == events + [s[..i]] + Drain(s[i + 2..]).0;
  }

  lemma {:induction false} DrainEnds(events: seq<string>, s: string)
    requires IndexOfBoundary(s).None?
    ensures DrainAfter(events, s) == (events, s)
  {
    assert events + [] == events;
  }

  datatype Reader = Reader(buffer: string, yielded: seq<Parsed>)

  const OPENED := Reader("", [])

  function ProcessAll(events: seq<string>): seq<Parsed> {
    if events == [] then [] else [ProcessEvent(events[0])] + ProcessAll(events[1..])
  }

  function Feed(r: Reader, chunk: string): Reader {
    var (events, rest) := Drain(r.buffer + chunk);
    Reader(rest, r.yielded + ProcessAll(events))
  }

  function FeedAll(r: Reader, chunks: seq<string>): Reader {
    if chunks == [] then r else Feed(FeedAll(r, Front(chunks)), Last(chunks))
  }

  /** At the end an unterminated event still counts, unless only white space is left. */
  function Finish(r: Reader): seq<Parsed> {
    if |Trim(r.buffer)| > 0 then r.yielded + [ProcessEvent(r.buffer)] else r.yielded
  }

  class EventStreamReader {
    var buffer: string
    var yielded: seq<Parsed>

    function View(): Reader
      reads this
    {
      Reader(buffer, yielded)
    }

    constructor ()
      ensures View() == OPENED
    {
      buffer, yielded := "", [];
    }

    method Receive(chunk: string)
      modifies this
      ensures View() == Feed(old(View()), chunk)
    {
      buffer := buffer + chunk;
      ghost var whole := buffer;
      ghost var events: seq<string> := [];
      NothingDrained(whole);
      var boundary := IndexOfBoundary(buffer);
      while boundary.Some?
        invariant boundary == IndexOfBoundary(buffer)
        invariant Drain(whole) == DrainAfter(events, buffer)
        invariant yielded == old(yielded) + ProcessAll(events)
        decreases |buffer|
      {
        var event := buffer[..boundary.value];
        DrainOneMore(events, buffer, boundary.value);
        buffer := buffer[boundary.value + 2..];
        yielded := yielded + [ProcessEvent(event)];
        ProcessOneMore(events, event);
        events := events + [event];
        boundary := IndexOfBoundary(buffer);
      }
      DrainEnds(events, buffer);
    }

    method End()
      modifies this
      ensures yielded == Finish(old(View()))
    {
      if |Trim(buffer)| > 0 {
        yielded := yielded + [ProcessEvent(buffer)];
      }
    }
  }

  lemma {:induction false} ProcessAllConcat(a: seq<string>, b: seq<string>)
    ensures ProcessAll(a + b) == ProcessAll(a) + ProcessAll(b)
  {
    if a == [] {
      assert a + b == b;
    } else {
      assert (a + b)[1..] == a[1..] + b;
      ProcessAllConcat(a[1..], b);
    }
  }

  lemma {:induction false} ProcessOneMore(events: seq<string>, event: string)
    ensures ProcessAll(events + [event]) == ProcessAll(events) + [ProcessEvent(event)]
  {
    ProcessAllConcat(events, [event]);
    assert [event][1..] == [];
  }

  lemma {:induction false} FirstBoundaryStays(a: string, b: string)
    ensures IndexOfBoundary(a).Some? ==> IndexOfBoundary(a + b) == IndexOfBoundary(a)
  {
    if IndexOfBoundary(a).Some? {
      var i := IndexOfBoundary(a).value;
      assert BoundaryAt(a + b, i);
      var at := IndexOfBoundary(a + b);
      assert at.Some? && at.value <= i;
      if at.value < i {
        assert BoundaryAt(a, at.value);
      }
    }
  }

  /** Draining early and draining late find the same events, a boundary split between chunks included. */
  lemma {:induction false} DrainConcat(a: string, b: string)
    ensures Drain(a + b).0 == Drain(a).0 + Drain(Drain(a).1 + b).0
    ensures Drain(a + b).1 == Drain(Drain(a).1 + b).1
    decreases |a|
  {
    match IndexOfBoundary(a)
    case None => assert [] + Drain(a + b).0 == Drain(a + b).0;
    case Some(i) =>
      FirstBoundaryStays(a, b);
      assert (a + b)[..i] == a[..i] && (a + b)[i + 2..] == a[i + 2..] + b;
      DrainConcat(a[i + 2..], b);
      EventsAppend(a[..i], Drain(a[i + 2..]).0, Drain(Drain(a).1 + b).0);
  }

  lemma {:induction false} EventsAppend(event: string, events: seq<string>, more: seq<string>)
    ensures [event] + (events + more) == [event] + events + more
  {
  }

  lemma ConcatAssociates<T>(a: seq<T>, b: seq<T>, c: seq<T>)
    ensures a + b + c == a + (b + c)
  {
  }

  lemma {:induction false} FeedConcat(r: Reader, a: string, b: string)
    ensures Feed(r, a + b) == Feed(Feed(r, a), b)
  {
    ConcatAssociates(r.buffer, a, b);
    DrainConcat(r.buffer + a, b);
    var events, more := Drain(r.buffer + a).0, Drain(Drain(r.buffer + a).1 + b).0;
    ProcessAllConcat(events, more);
    ConcatAssociates(r.yielded, ProcessAll(events), ProcessAll(more));
  }

  lemma {:induction false} FeedAllIsFeed(chunks: seq<string>)
    ensures FeedAll(OPENED, chunks) == Feed(OPENED, Concat(chunks))
  {
    if chunks == [] {
      assert Drain("") == ([], "");
      assert "" + "" == "" && OPENED.yielded + [] == [];
    } else {
      FeedAllIsFeed(Front(chunks));
      FeedConcat(OPENED, Concat(Front(chunks)), Last(chunks));
    }
  }

  /** Two ways of cutting one stream into chunks yield the same events. */
  lemma {:induction false} ChunkingDoesNotMatter(chunks: seq<string>, others: seq<string>)
    requires Concat(chunks) == Concat(others)
    ensures Finish(FeedAll(OPENED, chunks)) == Finish(FeedAll(OPENED, others))
  {
    FeedAllIsFeed(chunks);
    FeedAllIsFeed(others);
  }

  // What an event says.

  /** A field of an event, as the stream writes it: its name, a colon, and the value. */
  datatype Field = Field(name: string, value: string)

  predicate Writable(f: Field) { Free(f.name, ':') && Free(f.name, '\n') && Free(f.value, '\n') }

  function FieldLine(f: Field): string { f.name + ":" + f.value }

  function FieldLines(fields: seq<Field>): (lines: seq<string>)
    ensures |lines| == |fields|
  {
    if fields == [] then [] else FieldLines(Front(fields)) + [FieldLine(Last(fields))]
  }

  /** The value of the last field of that name, without white space around it. */
  function LastValue(fields: seq<Field>, name: string): Option<string> {
    if fields == [] then None
    else if Last(fields).name == name then Some(Trim(Last(fields).value))
    else LastValue(Front(fields), name)
  }

  /** The values of the data fields, each trimmed and ended by a line feed. */
  function DataOf(fields: seq<Field>): string {
    if fields == [] then ""
    else DataOf(Front(fields)) + if Last(fields).name == "data" then Trim(Last(fields).value) + "\n" else ""
  }

  lemma {:induction false} ReadWrittenField(f: Fields, field: Field)
    requires Writable(field)
    ensures var g := ReadField(f, FieldLine(field));
      && g.data == f.data + (if field.name == "data" then Trim(field.value) + "\n" else "")
      && g.eventType == (if field.name == "event" then Trim(field.value) else f.eventType)
      && g.id == (if field.name == "id" then Some(Trim(field.value)) else f.id)
  {
    var line, n := FieldLine(field), |field.name|;
    assert line[..n] == field.name && line[n] == ':' && line[n + 1..] == field.value;
    ColonAt(line, n);
    assert f.data + "" == f.data;
    assert f.data + Trim(field.value) + "\n" == f.data + (Trim(field.value) + "\n");
  }

  lemma {:induction false} FieldsRead(fields: seq<Field>)
    requires forall f :: f in fields ==> Writable(f)
    ensures ReadFields(FieldLines(fields))
      == Fields(LastValue(fields, "event").GetOr("message"), LastValue(fields, "id"), DataOf(fields))
  {
    if fields != [] {
      var lines := FieldLines(fields);
      FieldsRead(Front(fields));
      ReadWrittenField(ReadFields(FieldLines(Front(fields))), Last(fields));
      assert Front(lines) == FieldLines(Front(fields)) && Last(lines) == FieldLine(Last(fields));
    }
  }

  lemma {:induction false} FieldLinesAreFree(fields: seq<Field>)
    requires forall f :: f in fields ==> Writable(f)
    ensures forall line :: line in FieldLines(fields) ==> Free(line, '\n')
  {
    if fields != [] {
      var last := Last(fields);
      FieldLinesAreFree(Front(fields));
      assert Writable(last);
      assert Free(FieldLine(last), '\n');
      assert FieldLines(fields) == FieldLines(Front(fields)) + [FieldLine(last)];
    }
  }

  /** An event written as fields is read as what they say: the last event and id fields count, and the data
      fields are joined line by line. */
  lemma {:induction false} EventSaysItsFields(fields: seq<Field>)
    requires fields != [] && forall f :: f in fields ==> Writable(f)
    ensures ProcessEvent(Join(FieldLines(fields), "\n"))
      == Parsed(LastValue(fields, "event").GetOr("message"), LastValue(fields, "id"), Trim(DataOf(fields)))
  {
    FieldLinesAreFree(fields);
    SplitJoin(FieldLines(fields), '\n');
    FieldsRead(fields);
  }

  /** At the end of the stream the rest is an event exactly if there is more to it than white space. */
  lemma {:induction false} RestCountsUnlessBlank(r: Reader)
    ensures Finish(r) == r.yielded + if exists i :: 0 <= i < |r.buffer| && !IsSpace(r.buffer[i]) then
                                       [ProcessEvent(r.buffer)] else []
  {
    TrimIsEmptyIff(r.buffer);
    assert r.yielded + [] == r.yielded;
  }

  // Data frames, the form in which the gateway itself writes streams.

  function DataFrame(data: string): string { "data: " + data + "\n\n" }

  function DataFrames(frames: seq<string>): string {
    if frames == [] then "" else DataFrames(Front(frames)) + DataFrame(Last(frames))
  }

  function Messages(frames: seq<string>): seq<Parsed> {
    seq(|frames|, i requires 0 <= i < |frames| => Parsed("message", None, frames[i]))
  }

  lemma {:induction false} ReadDataField(f: Fields, value: string)
    ensures ReadField(f, "data:" + value) == f.(data := f.data + Trim(value) + "\n")
  {
    var line := "data:" + value;
    assert line[..4] == "data" && line[5..] == value;
    ColonAt(line, 4);
  }

  lemma {:induction false} DataLine(data: string)
    requires Free(data, '\n') && Trimmed(data)
    ensures ProcessEvent("data: " + data) == Parsed("message", None, data)
  {
    var line := "data:" + (" " + data);
    assert "data: " == "data:" + " ";
    ConcatAssociates("data:", " ", data);
    SplitOfFree(line, '\n');
    assert Front([line]) == [] && Last([line]) == line;
    ReadDataField(ReadFields([]), " " + data);
    TrimLeadingSpace(data);
    assert "" + data == data;
    TrimTrailingNewline(data);
  }

  lemma {:induction false} ColonAt(line: string, i: nat)
    requires i < |line| && line[i] == ':' && ':' !in line[..i]
    ensures Colon(line) == i
  {
    if i > 0 {
      assert line[0] == line[..i][0];
      assert line[..i][1..] == line[1..][..i - 1];
      ColonAt(line[1..], i - 1);
    }
  }

  lemma TrimLeadingSpace(data: string)
    requires Trimmed(data)
    ensures Trim(" " + data) == data
  {
    assert (" " + data)[1..] == data;
    assert TrimStart(" " + data) == TrimStart(data) == data;
  }

  lemma TrimTrailingNewline(data: string)
    requires Trimmed(data)
    ensures Trim(data + "\n") == data
  {
    if data == "" {
      assert data + "\n" == "\n" && "\n"[1..] == "";
      assert TrimStart("\n") == TrimStart("") == "";
    } else {
      assert (data + "\n")[0] == data[0];
      assert (data + "\n")[..|data|] == data;
      assert TrimEnd(data + "\n") == TrimEnd(data);
    }
  }

  lemma DrainOneFrame(data: string)
    requires Free(data, '\n')
    ensures Drain(DataFrame(data)) == (["data: " + data], "")
  {
    var frame, n := DataFrame(data), |"data: " + data|;
    assert forall j :: 0 <= j < n ==> frame[j] != '\n' by {
      forall j | 0 <= j < n ensures frame[j] != '\n' {
        assert frame[j] == ("data: " + data)[j];
        if j >= 6 { assert frame[j] == data[j - 6]; }
      }
    }
    assert BoundaryAt(frame, n);
    assert IndexOfBoundary(frame) == Some(n);
    assert frame[..n] == "data: " + data && frame[n + 2..] == "";
    assert Drain("") == ([], "");
    assert ["data: " + data] + [] == ["data: " + data];
  }

  lemma {:induction false} FeedOneFrame(yielded: seq<Parsed>, data: string)
    requires Free(data, '\n') && Trimmed(data)
    ensures Feed(Reader("", yielded), DataFrame(data)) == Reader("", yielded + [Parsed("message", None, data)])
  {
    DrainOneFrame(data);
    DataLine(data);
    assert "" + DataFrame(data) == DataFrame(data);
    ProcessOneMore([], "data: " + data);
    assert [] + ["data: " + data] == ["data: " + data];
  }

  lemma {:induction false} MessagesPush(frames: seq<string>, data: string)
    ensures Messages(frames + [data]) == Messages(frames) + [Parsed("message", None, data)]
  {
  }

  lemma {:induction false} OneMoreFrame(before: seq<string>, data: string)
    requires Feed(OPENED, DataFrames(before)) == Reader("", Messages(before)) && Free(data, '\n') && Trimmed(data)
    ensures Feed(OPENED, DataFrames(before) + DataFrame(data)) == Reader("", Messages(before + [data]))
  {
    FeedConcat(OPENED, DataFrames(before), DataFrame(data));
    FeedOneFrame(Messages(before), data);
    MessagesPush(before, data);
  }

  /** Frames of trimmed one-line data come back in order, and nothing is left over. */
  lemma {:induction false} FramesReadBack(frames: seq<string>)
    requires forall data :: data in frames ==> Free(data, '\n') && Trimmed(data)
    ensures Feed(OPENED, DataFrames(frames)) == Reader("", Messages(frames))
  {
    if frames == [] {
      assert Drain("") == ([], "");
      assert "" + "" == "";
    } else {
      FramesReadBack(Front(frames));
      OneMoreFrame(Front(frames), Last(frames));
      assert frames == Front(frames) + [Last(frames)];
    }
  }

  /** The same for frames cut into chunks anywhere, to the end of the stream. */
  lemma {:induction false} FramesReadBackInChunks(frames: seq<string>, chunks: seq<string>)
    requires forall data :: data in frames ==> Free(data, '\n') && Trimmed(data)
    requires Concat(chunks) == DataFrames(frames)
    ensures FeedAll(OPENED, chunks) == Reader("", Messages(frames))
        && Finish(FeedAll(OPENED, chunks)) == Messages(frames)
  {
    FramesReadBack(frames);
    FeedAllIsFeed(chunks);
  }
}
