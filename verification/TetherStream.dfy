/** The tether prints events onto a stream and the daemon decodes them from whatever chunks arrive. */
module TetherStream {
  import opened Listing
  import opened Text

  // connections.ts

  function SseEncode(event: string, data: string): string {
    "event: " + event + "\ndata: " + data + "\n\n"
  }

  const KEEPALIVE := ": keepalive\n\n"

  datatype Message = Event(name: string, data: string) | Keepalive

  function Print(message: Message): string {
    match message
    case Event(name, data) => SseEncode(name, data)
    case Keepalive => KEEPALIVE
  }

  function PrintAll(messages: seq<Message>): string {
    if messages == [] then "" else PrintAll(Front(messages)) + Print(Last(messages))
  }

  // tether-client.ts

  datatype Received = State(json: string) | Config(json: string) | Superseded | Shutdown

  datatype Decoder = Decoder(buffer: string, currentEvent: string, currentData: string, received: seq<Received>)

  const CONNECTED := Decoder("", "", "", [])

  /** What a completed event makes the daemon do. A state or config event without data does nothing. */
  function Handle(event: string, data: string): seq<Received> {
    if event == "state" && data != "" then [State(data)]
    else if event == "config" && data != "" then [Config(data)]
    else if event == "superseded" then [Superseded]
    else if event == "shutdown" then [Shutdown]
    else []
  }

  function HandleLine(d: Decoder, line: string): Decoder {
    if StartsWith(line, "event: ") then d.(currentEvent := Trim(line[7..]))
    else if StartsWith(line, "data: ") then d.(currentData := line[6..])
    else if line == "" then
      d.(currentEvent := "", currentData := "", received := d.received + Handle(d.currentEvent, d.currentData))
    else d
  }

  function HandleLines(d: Decoder, lines: seq<string>): Decoder {
    if lines == [] then d else HandleLine(HandleLines(d, Front(lines)), Last(lines))
  }

  function Feed(d: Decoder, chunk: string): Decoder {
    var lines := Split(d.buffer + chunk, '\n');
    HandleLines(d, Front(lines)).(buffer := Last(lines))
  }

  function FeedAll(d: Decoder, chunks: seq<string>): Decoder {
    if chunks == [] then d else Feed(FeedAll(d, Front(chunks)), Last(chunks))
  }

  class StreamDecoder {
    var buffer: string
    var currentEvent: string
    var currentData: string
    var received: seq<Received>

    function View(): Decoder
      reads this
    {
      Decoder(buffer, currentEvent, currentData, received)
    }

    constructor ()
      ensures View() == CONNECTED
    {
      buffer, currentEvent, currentData, received := "", "", "", [];
    }

    method Receive(chunk: string)
      modifies this
      ensures View() == Feed(old(View()), chunk)
    {
      buffer := buffer + chunk;
      var lines := Split(buffer, '\n');
      buffer := Last(lines);
      lines := Front(lines);
      ghost var before := old(View()).(buffer := buffer);
      KeepsBuffer(old(View()), lines, buffer);
      for i := 0 to |lines|
        invariant View() == HandleLines(before, lines[..i])
      {
        var line := lines[i];
        if StartsWith(line, "event: ") {
          currentEvent := Trim(line[7..]);
        } else if StartsWith(line, "data: ") {
          currentData := line[6..];
        } else if line == "" {
          if currentEvent == "state" && currentData != "" {
            received := received + [State(currentData)];
          } else if currentEvent == "config" && currentData != "" {
            received := received + [Config(currentData)];
          } else if currentEvent == "superseded" {
            received := received + [Superseded];
          } else if currentEvent == "shutdown" {
            received := received + [Shutdown];
          }
          currentEvent := "";
          currentData := "";
        }
        assert Front(lines[..i + 1]) == lines[..i] && Last(lines[..i + 1]) == line;
      }
      assert lines[..|lines|] == lines;
    }
  }

  lemma {:induction false} KeepsBuffer(d: Decoder, lines: seq<string>, buffer: string)
    ensures HandleLines(d.(buffer := buffer), lines) == HandleLines(d, lines).(buffer := buffer)
  {
    if lines != [] {
      KeepsBuffer(d, Front(lines), buffer);
    }
  }

  lemma {:induction false} HandleLinesConcat(d: Decoder, a: seq<string>, b: seq<string>)
    ensures HandleLines(d, a + b) == HandleLines(HandleLines(d, a), b)
  {
    if b == [] {
      assert a + b == a;
    } else {
      assert Front(a + b) == a + Front(b) && Last(a + b) == Last(b);
      HandleLinesConcat(d, a, Front(b));
    }
  }

  /** Feed once the text is already split: all parts but the last are lines, the last stays behind. */
  function FeedParts(d: Decoder, parts: seq<string>): Decoder
    requires parts != []
  {
    HandleLines(d, Front(parts)).(buffer := Last(parts))
  }

  lemma FeedPartsMerge(d: Decoder, a: seq<string>, b: seq<string>)
    requires a != [] && b != []
    ensures FeedParts(d, Merge(a, b)) == FeedParts(FeedParts(d, a), Merge([Last(a)], b))
  {
    var meeting := Merge([Last(a)], b);
    assert Merge(a, b) == Front(a) + meeting;
    assert Front(Front(a) + meeting) == Front(a) + Front(meeting);
    HandleLinesConcat(d, Front(a), Front(meeting));
    KeepsBuffer(HandleLines(d, Front(a)), Front(meeting), Last(a));
  }

  /** Cutting a text in two makes no difference to the decoder. */
  lemma FeedConcat(d: Decoder, a: string, b: string)
    ensures Feed(d, a + b) == Feed(Feed(d, a), b)
  {
    var first, second := Split(d.buffer + a, '\n'), Split(b, '\n');
    assert d.buffer + (a + b) == d.buffer + a + b;
    SplitConcat(d.buffer + a, b, '\n');
    PartsAreFree(d.buffer + a, '\n');
    SplitOfFree(Last(first), '\n');
    SplitConcat(Last(first), b, '\n');
    FeedPartsMerge(d, first, second);
  }

  lemma {:induction false} ChunkingDoesNotMatter(chunks: seq<string>)
    ensures FeedAll(CONNECTED, chunks) == Feed(CONNECTED, Concat(chunks))
  {
    if chunks == [] {
      assert Split("", '\n') == [""];
    } else {
      ChunkingDoesNotMatter(Front(chunks));
      FeedConcat(CONNECTED, Concat(Front(chunks)), Last(chunks));
    }
  }

  /** A message the line format can carry. */
  predicate Printable(message: Message) {
    message.Event? ==> Free(message.name, '\n') && Trimmed(message.name) && Free(message.data, '\n')
  }

  function Expected(messages: seq<Message>): seq<Received> {
    if messages == [] then []
    else
      Expected(Front(messages)) +
      match Last(messages)
      case Event(name, data) => Handle(name, data)
      case Keepalive => []
  }

  lemma EventLines(name: string, data: string)
    requires Free(name, '\n') && Free(data, '\n')
    ensures Split(SseEncode(name, data), '\n') == ["event: " + name, "data: " + data, "", ""]
  {
    var first, second := "event: " + name, "data: " + data;
    assert Free(first, '\n') && Free(second, '\n');
    assert SseEncode(name, data) == first + ['\n'] + (second + ['\n'] + ("" + ['\n'] + ""));
    SplitPrefix(first, second + ['\n'] + ("" + ['\n'] + ""), '\n');
    SplitPrefix(second, "" + ['\n'] + "", '\n');
    SplitPrefix("", "", '\n');
  }

  const COMMENT := ": keepalive"

  lemma CommentLine(d: Decoder)
    ensures HandleLine(d, COMMENT) == d
  {
    assert COMMENT[0] == ':';
  }

  lemma KeepaliveLines()
    ensures Split(KEEPALIVE, '\n') == [COMMENT, "", ""]
  {
    assert KEEPALIVE == COMMENT + ['\n'] + ("" + ['\n'] + "");
    SplitPrefix(COMMENT, "" + ['\n'] + "", '\n');
    SplitPrefix("", "", '\n');
  }

  lemma {:induction false} HandleOneMore(d: Decoder, lines: seq<string>, line: string)
    ensures HandleLines(d, lines + [line]) == HandleLine(HandleLines(d, lines), line)
  {
    assert Front(lines + [line]) == lines && Last(lines + [line]) == line;
  }

  lemma {:induction false} CommentThenBlank(d: Decoder)
    requires d.currentEvent == "" && d.currentData == ""
    ensures HandleLines(d, Front([COMMENT, "", ""])) == d && Last([COMMENT, "", ""]) == ""
  {
    assert Front([COMMENT, "", ""]) == [] + [COMMENT] + [""];
    HandleOneMore(d, [], COMMENT);
    HandleOneMore(d, [] + [COMMENT], "");
    CommentLine(d);
    assert d.received + [] == d.received;
  }

  lemma DecodeKeepalive(d: Decoder)
    requires d.buffer == "" && d.currentEvent == "" && d.currentData == ""
    ensures Feed(d, KEEPALIVE) == d
  {
    assert "" + KEEPALIVE == KEEPALIVE;
    KeepaliveLines();
    CommentThenBlank(d);
  }

  lemma DecodeEvent(d: Decoder, name: string, data: string)
    requires Free(name, '\n') && Trimmed(name) && Free(data, '\n')
    requires d.buffer == "" && d.currentEvent == "" && d.currentData == ""
    ensures Feed(d, SseEncode(name, data)) == d.(received := d.received + Handle(name, data))
  {
    var first, second := "event: " + name, "data: " + data;
    assert "" + SseEncode(name, data) == SseEncode(name, data);
    EventLines(name, data);
    assert Front([first, second, "", ""]) == [] + [first] + [second] + [""];
    HandleOneMore(d, [], first);
    HandleOneMore(d, [first], second);
    HandleOneMore(d, [first] + [second], "");
    TrimOfTrimmed(name);
    assert first[7..] == name && second[6..] == data && second[0] == 'd';
  }

  /** Between messages the decoder holds nothing back. */
  lemma DecodeOne(d: Decoder, message: Message)
    requires Printable(message) && d.buffer == "" && d.currentEvent == "" && d.currentData == ""
    ensures Feed(d, Print(message)) == d.(received := d.received + Expected([message]))
  {
    assert Front([message]) == [] && Last([message]) == message;
    match message
    case Keepalive => DecodeKeepalive(d); assert d.received + [] == d.received;
    case Event(name, data) => DecodeEvent(d, name, data);
  }

  lemma {:induction false} ExpectedPush(messages: seq<Message>)
    requires messages != []
    ensures Expected(messages) == Expected(Front(messages)) + Expected([Last(messages)])
  {
    var last := [Last(messages)];
    assert Front(last) == [] && Last(last) == Last(messages);
    assert Expected(last) == [] + match Last(messages)
                                  case Event(name, data) => Handle(name, data)
                                  case Keepalive => [];
  }

  lemma {:induction false} DecodeAll(messages: seq<Message>)
    requires forall message :: message in messages ==> Printable(message)
    ensures Feed(CONNECTED, PrintAll(messages)) == CONNECTED.(received := Expected(messages))
  {
    if messages == [] {
      assert Split("", '\n') == [""];
    } else {
      DecodeAll(Front(messages));
      FeedConcat(CONNECTED, PrintAll(Front(messages)), Print(Last(messages)));
      DecodeOne(CONNECTED.(received := Expected(Front(messages))), Last(messages));
      ExpectedPush(messages);
    }
  }

  // What the daemon is meant to make of the messages.

  /** The message is what the daemon received. */
  predicate Carries(message: Message, r: Received) {
    match r
    case State(json) => json != "" && message == Event("state", json)
    case Config(json) => json != "" && message == Event("config", json)
    case Superseded => message.Event? && message.name == "superseded"
    case Shutdown => message.Event? && message.name == "shutdown"
  }

  lemma {:induction false} HandledIsCarried(message: Message)
    ensures var r := Expected([message]);
      |r| <= 1 && (r == [] ==> forall u :: !Carries(message, u)) && (r != [] ==> Carries(message, r[0]))
  {
    assert Front([message]) == [] && Last([message]) == message;
  }

  lemma {:induction false} ExpectedIsCarried(messages: seq<Message>) returns (at: seq<nat>)
    ensures Keeps(messages, Expected(messages), at, Carries)
  {
    at := [];
    if messages != [] {
      var before, message := Front(messages), Last(messages);
      var sofar := ExpectedIsCarried(before);
      HandledIsCarried(message);
      var one := KeepsOne(message, Expected([message]), Carries);
      KeepsConcat(before, Expected(before), sofar, [message], Expected([message]), one, Carries);
      ExpectedPush(messages);
      assert before + [message] == messages;
      at := sofar + Moved(one, |before|);
    }
  }

  /** Any messages, keepalives among them, cut into chunks anywhere, arrive whole and in order: every state and
      configuration with the text it was sent with, every notice, and nothing else. */
  lemma {:induction false} DaemonReceivesWhatTetherSent(messages: seq<Message>, chunks: seq<string>)
    returns (at: seq<nat>)
    requires forall message :: message in messages ==> Printable(message)
    requires Concat(chunks) == PrintAll(messages)
    ensures FeedAll(CONNECTED, chunks) == CONNECTED.(received := Expected(messages))
    ensures Keeps(messages, FeedAll(CONNECTED, chunks).received, at, Carries)
  {
    ChunkingDoesNotMatter(chunks);
    DecodeAll(messages);
    at := ExpectedIsCarried(messages);
  }
}
