/** What the tether prints is an event stream in the standard's sense: any client of the WHATWG HTML Living Standard,
    section 9.2, reads the same events. */
module TetherWire {
  import opened EventStream
  import T = TetherStream
  import Text

  /** Text a line can carry, in ASCII. */
  predicate Plain(s: string) { forall i :: 0 <= i < |s| ==> s[i] < 128 as char && s[i] != '\n' && s[i] != '\r' }

  predicate PlainMessage(m: T.Message) { m.Event? ==> m.name != "" && Plain(m.name) && Plain(m.data) }

  predicate IsAscii(s: string) { forall i :: 0 <= i < |s| ==> s[i] < 128 as char }

  lemma {:induction false} AsciiConcat(a: string, b: string)
    requires IsAscii(a) && IsAscii(b)
    ensures IsAscii(a + b) && Ascii(a + b) == Ascii(a) + Ascii(b)
  {
  }

  predicate Unbroken(line: Bytes) { forall i :: 0 <= i < |line| ==> !IsBreak(line[i]) }

  lemma {:induction false} BreakBehind(line: Bytes, rest: Bytes)
    requires Unbroken(line)
    ensures FirstBreak(line + [LF] + rest) == |line|
  {
    if line == [] {
      assert (line + [LF] + rest)[0] == LF;
    } else {
      assert (line + [LF] + rest)[1..] == line[1..] + [LF] + rest;
      BreakBehind(line[1..], rest);
    }
  }

  lemma {:induction false} LineFirst(line: Bytes, rest: Bytes)
    requires Unbroken(line)
    ensures Lines(line + [LF] + rest) == [line] + Lines(rest)
  {
    var s := line + [LF] + rest;
    BreakBehind(line, rest);
    assert s[|line|] == LF && s[..|line|] == line && s[|line| + 1..] == rest;
  }

  /** Field and value as the standard splits a line. */
  lemma {:induction false} FieldLine(c: Client, field: Bytes, value: Bytes, line: Bytes)
    requires field != [] && COLON !in field && line == field + [COLON, SPACE] + value
    ensures ProcessLine(c, line) == ProcessField(c, field, value)
  {
    ColonBehind(field, [SPACE] + value);
    assert line == field + [COLON] + ([SPACE] + value);
    assert line[..|field|] == field && line[|field| + 1..] == [SPACE] + value;
    assert ([SPACE] + value)[1..] == value;
  }

  lemma {:induction false} ColonBehind(field: Bytes, rest: Bytes)
    requires COLON !in field
    ensures IndexOf(field + [COLON] + rest, COLON) == |field|
  {
    var line := field + [COLON] + rest;
    assert line[|field|] == COLON;
    assert forall i :: 0 <= i < |field| ==> line[i] == field[i] && field[i] in field;
  }

  /** Nothing of an event has been read yet, and no event has named an id. */
  predicate Between(c: Client) { c.data == [] && c.eventType == [] && c.idBuffer == [] && c.lastEventId == [] }

  /** The event a message is; a keepalive is none. */
  function EventOf(m: T.Message): (events: seq<Event>)
    requires PlainMessage(m)
  {
    match m
    case Event(name, data) => [Event(Ascii(name), Ascii(data), [])]
    case Keepalive => []
  }

  function EventsOf(messages: seq<T.Message>): seq<Event>
    requires forall i :: 0 <= i < |messages| ==> PlainMessage(messages[i])
  {
    if messages == [] then []
    else EventsOf(messages[..|messages| - 1]) + EventOf(messages[|messages| - 1])
  }

  lemma {:induction false} PlainLine(prefix: string, s: string)
    requires Plain(prefix) && Plain(s)
    ensures Plain(prefix + s) && Ascii(prefix + s) == Ascii(prefix) + Ascii(s) && Unbroken(Ascii(prefix + s))
  {
    AsciiConcat(prefix, s);
  }

  lemma {:induction false} TextAndLineFeed(line: string, rest: string)
    requires Plain(line) && IsAscii(rest)
    ensures IsAscii(line + "\n" + rest)
    ensures Lines(Ascii(line + "\n" + rest)) == [Ascii(line)] + Lines(Ascii(rest))
  {
    AsciiConcat(line, "\n");
    AsciiConcat(line + "\n", rest);
    assert Ascii("\n") == [LF];
    LineFirst(Ascii(line), Ascii(rest));
  }

  const EVENT_LINE := "event: "
  const DATA_LINE := "data: "

  lemma {:induction false} TwoLines(first: string, second: string)
    requires Plain(first) && Plain(second)
    ensures var text := first + "\n" + (second + "\n" + "\n");
      IsAscii(text) && Lines(Ascii(text)) == [Ascii(first), Ascii(second), []]
  {
    TextAndLineFeed("", "");
    assert "" + "\n" + "" == "\n" && Ascii("") == [] && Lines([]) == [];
    TextAndLineFeed(second, "\n");
    TextAndLineFeed(first, second + "\n" + "\n");
  }

  lemma Regroup(first: string, feed: string, prefix: string, data: string)
    ensures first + (feed + prefix) + data + (feed + feed) == first + feed + (prefix + data + feed + feed)
  {
  }

  lemma {:induction false} EncodedText(name: string, data: string)
    ensures T.SseEncode(name, data) == EVENT_LINE + name + "\n" + (DATA_LINE + data + "\n" + "\n")
  {
    assert "\ndata: " == "\n" + DATA_LINE && "\n\n" == "\n" + "\n";
    Regroup(EVENT_LINE + name, "\n", DATA_LINE, data);
  }

  lemma {:induction false} EventTextLines(name: string, data: string)
    requires Plain(name) && Plain(data)
    ensures IsAscii(T.SseEncode(name, data))
    ensures Lines(Ascii(T.SseEncode(name, data))) == [Ascii(EVENT_LINE + name), Ascii(DATA_LINE + data), []]
  {
    PlainLine(EVENT_LINE, name);
    PlainLine(DATA_LINE, data);
    TwoLines(EVENT_LINE + name, DATA_LINE + data);
    EncodedText(name, data);
  }

  lemma {:induction false} NamedLine(c: Client, field: string, value: string)
    requires Plain(field) && Plain(value) && field != "" && ':' !in field
    ensures Plain(field + ": " + value)
    ensures ProcessLine(c, Ascii(field + ": " + value)) == ProcessField(c, Ascii(field), Ascii(value))
  {
    AsciiConcat(field, ": ");
    AsciiConcat(field + ": ", value);
    assert Ascii(": ") == [COLON, SPACE];
    FieldLine(c, Ascii(field), Ascii(value), Ascii(field + ": " + value));
  }

  lemma {:induction false} ProcessLast(c: Client)
    ensures ProcessLines(c, [[]]) == Dispatch(c)
  {
    var blank: seq<Bytes> := [[]];
    assert blank[1..] == [];
    assert ProcessLines(c, blank) == ProcessLines(ProcessLine(c, []), []);
  }

  lemma {:induction false} ProcessTwo(c: Client, line: Bytes)
    ensures ProcessLines(c, [line, []]) == Dispatch(ProcessLine(c, line))
  {
    assert [line, []][1..] == [[]];
    ProcessLast(ProcessLine(c, line));
  }

  lemma {:induction false} ProcessThree(c: Client, first: Bytes, second: Bytes)
    ensures ProcessLines(c, [first, second, []]) == Dispatch(ProcessLine(ProcessLine(c, first), second))
  {
    assert [first, second, []][1..] == [second, []];
    ProcessTwo(ProcessLine(c, first), second);
  }

  lemma {:induction false} FieldsFill(c: Client, name: Bytes, data: Bytes)
    requires Between(c) && name != []
    ensures Dispatch(ProcessField(ProcessField(c, Ascii("event"), name), Ascii("data"), data))
      == c.(events := c.events + [Event(name, data, [])])
  {
    assert |Ascii("event")| != |Ascii("data")|;
    var filled := [] + data + [LF];
    assert filled[|filled| - 1] == LF && filled[..|filled| - 1] == data;
  }

  lemma {:induction false} FieldLinesRead(c: Client, name: string, data: string, first: string, second: string)
    requires Between(c) && name != "" && Plain(name) && Plain(data)
    requires first == "event" + ": " + name && second == "data" + ": " + data
    ensures Plain(first) && Plain(second)
    ensures ProcessLines(c, [Ascii(first), Ascii(second), []])
      == c.(events := c.events + [Event(Ascii(name), Ascii(data), [])])
  {
    NamedLine(c, "event", name);
    NamedLine(ProcessField(c, Ascii("event"), Ascii(name)), "data", data);
    ProcessThree(c, Ascii(first), Ascii(second));
    FieldsFill(c, Ascii(name), Ascii(data));
  }

  lemma {:induction false} EventTextReads(c: Client, name: string, data: string)
    requires Between(c) && name != "" && Plain(name) && Plain(data)
    ensures IsAscii(T.SseEncode(name, data))
    ensures ProcessLines(c, Lines(Ascii(T.SseEncode(name, data))))
      == c.(events := c.events + [Event(Ascii(name), Ascii(data), [])])
  {
    EventTextLines(name, data);
    assert EVENT_LINE == "event" + ": " && DATA_LINE == "data" + ": ";
    FieldLinesRead(c, name, data, EVENT_LINE + name, DATA_LINE + data);
  }

  lemma {:induction false} KeepaliveReads(c: Client)
    requires Between(c)
    ensures IsAscii(T.KEEPALIVE) && ProcessLines(c, Lines(Ascii(T.KEEPALIVE))) == c
  {
    var comment := ": keepalive";
    assert T.KEEPALIVE == comment + "\n" + ("" + "\n" + "");
    TextAndLineFeed("", "");
    TextAndLineFeed(comment, "" + "\n" + "");
    assert Lines(Ascii("")) == [] && Ascii("") == [];
    assert Lines(Ascii(T.KEEPALIVE)) == [Ascii(comment), []];
    assert Ascii(comment)[0] == COLON;
    ProcessTwo(c, Ascii(comment));
  }

  predicate EndsInLineFeed(bytes: Bytes) { bytes == [] || bytes[|bytes| - 1] == LF }

  lemma {:induction false} MessageReads(c: Client, m: T.Message)
    requires PlainMessage(m) && Between(c)
    ensures IsAscii(T.Print(m)) && EndsInLineFeed(Ascii(T.Print(m)))
    ensures ProcessLines(c, Lines(Ascii(T.Print(m)))) == c.(events := c.events + EventOf(m))
  {
    match m
    case Event(name, data) => EventTextReads(c, name, data);
    case Keepalive =>
      KeepaliveReads(c);
      assert c.events + [] == c.events;
  }

  lemma {:induction false} ReadOneMore(before: Bytes, more: Bytes, c: Client)
    requires EndsInLineFeed(before) && EndsInLineFeed(more) && Parse(before) == c
    ensures EndsInLineFeed(before + more) && Parse(before + more) == ProcessLines(c, Lines(more))
  {
    LinesConcat(before, more);
    ProcessLinesConcat(FRESH, Lines(before), Lines(more));
  }

  /** Every client of the standard reads the events the tether prints: their names, their data, in order. */
  lemma {:induction false} AnyClientReadsTheEvents(messages: seq<T.Message>)
    requires forall i :: 0 <= i < |messages| ==> PlainMessage(messages[i])
    ensures IsAscii(T.PrintAll(messages)) && EndsInLineFeed(Ascii(T.PrintAll(messages)))
    ensures Parse(Ascii(T.PrintAll(messages))) == FRESH.(events := EventsOf(messages))
  {
    if messages == [] {
      assert Lines(Ascii("")) == [];
    } else {
      var before, last := messages[..|messages| - 1], messages[|messages| - 1];
      AnyClientReadsTheEvents(before);
      var c := FRESH.(events := EventsOf(before));
      MessageReads(c, last);
      AsciiConcat(T.PrintAll(before), T.Print(last));
      ReadOneMore(Ascii(T.PrintAll(before)), Ascii(T.Print(last)), c);
    }
  }
}
