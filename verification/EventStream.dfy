/** What a client makes of an event stream, read on bytes.

    Lines, fields and dispatch, as the standard has them. */
module EventStream {
  // The WHATWG HTML Living Standard, section 9.2.5 (line endings, leading byte order mark) and section
  // 9.2.6 (fields and dispatch). Every character the format cares about is ASCII, so splitting bytes and
  // splitting decoded text agree.

  type Byte = b: int | 0 <= b < 256
  type Bytes = seq<Byte>

  const LF: Byte := 0x0a
  const CR: Byte := 0x0d
  const SPACE: Byte := 0x20
  const COLON: Byte := 0x3a

  /** The bytes of an ASCII literal. */
  function Ascii(text: string): (bytes: Bytes)
    requires forall i :: 0 <= i < |text| ==> text[i] < 128 as char
    ensures |bytes| == |text| && forall i :: 0 <= i < |text| ==> bytes[i] == text[i] as int
  {
    seq(|text|, i requires 0 <= i < |text| => text[i] as int)
  }

  // Section 9.2.5: lines end in CR LF, LF or CR.

  predicate IsBreak(b: Byte) { b == LF || b == CR }

  /** Position of the first line break, or the length when there is none. */
  function FirstBreak(s: Bytes): (i: nat)
    ensures i <= |s|
    ensures i < |s| ==> IsBreak(s[i])
  {
    if s == [] || IsBreak(s[0]) then 0 else 1 + FirstBreak(s[1..])
  }

  lemma {:induction false} NoBreakBeforeFirst(s: Bytes)
    ensures forall j :: 0 <= j < FirstBreak(s) ==> !IsBreak(s[j])
  {
    if s != [] && !IsBreak(s[0]) {
      NoBreakBeforeFirst(s[1..]);
    }
  }

  function BreakWidth(s: Bytes, i: nat): (width: nat)
    requires i < |s|
    ensures 1 <= width <= 2 && i + width <= |s|
  {
    if s[i] == CR && i + 1 < |s| && s[i + 1] == LF then 2 else 1
  }

  function AfterFirstLine(s: Bytes): (rest: Bytes)
    requires FirstBreak(s) < |s|
    ensures |rest| < |s|
  {
    s[FirstBreak(s) + BreakWidth(s, FirstBreak(s))..]
  }

  /** The complete lines of a stream, without their endings. */
  function Lines(s: Bytes): seq<Bytes> {
    if FirstBreak(s) == |s| then []
    else [s[..FirstBreak(s)]] + Lines(AfterFirstLine(s))
  }

  /** What follows the last line ending. */
  function Unfinished(s: Bytes): Bytes {
    if FirstBreak(s) == |s| then s else Unfinished(AfterFirstLine(s))
  }

  // Section 9.2.6: fields fill buffers, a blank line dispatches them.

  datatype Event = Event(eventType: Bytes, data: Bytes, lastEventId: Bytes)

  datatype Client = Client(
    data: Bytes,
    eventType: Bytes,
    idBuffer: Bytes,
    lastEventId: Bytes,
    retry: Bytes,
    events: seq<Event>)

  const FRESH := Client([], [], [], [], [], [])

  predicate AllDigits(s: Bytes) { s != [] && forall i :: 0 <= i < |s| ==> 48 <= s[i] <= 57 }

  function IndexOf(s: Bytes, b: Byte): (i: nat)
    ensures i <= |s|
    ensures forall j :: 0 <= j < i ==> s[j] != b
    ensures i < |s| ==> s[i] == b
  {
    if s == [] || s[0] == b then 0 else 1 + IndexOf(s[1..], b)
  }

  function Dispatch(c: Client): Client {
    var named := c.(lastEventId := c.idBuffer);
    if c.data == [] then named.(data := [], eventType := [])
    else
      var data := if c.data[|c.data| - 1] == LF then c.data[..|c.data| - 1] else c.data;
      var eventType := if c.eventType == [] then Ascii("message") else c.eventType;
      named.(data := [], eventType := [], events := c.events + [Event(eventType, data, c.idBuffer)])
  }

  function ProcessField(c: Client, name: Bytes, value: Bytes): Client {
    if name == Ascii("event") then c.(eventType := value)
    else if name == Ascii("data") then c.(data := c.data + value + [LF])
    else if name == Ascii("id") then (if 0 in value then c else c.(idBuffer := value))
    else if name == Ascii("retry") then (if AllDigits(value) then c.(retry := value) else c)
    else c
  }

  function ProcessLine(c: Client, line: Bytes): Client {
    if line == [] then Dispatch(c)
    else
      var colon := IndexOf(line, COLON);
      if colon == 0 then c
      else if colon == |line| then ProcessField(c, line, [])
      else
        var value := line[colon + 1..];
        ProcessField(c, line[..colon], if value != [] && value[0] == SPACE then value[1..] else value)
  }

  function ProcessLines(c: Client, lines: seq<Bytes>): Client
    decreases |lines|
  {
    if lines == [] then c else ProcessLines(ProcessLine(c, lines[0]), lines[1..])
  }

  const BOM: Bytes := [0xef, 0xbb, 0xbf]

  predicate StartsWithBom(s: Bytes) {
    |s| >= 3 && s[0] == BOM[0] && s[1] == BOM[1] && s[2] == BOM[2]
  }

  function Parse(s: Bytes): Client { ProcessLines(FRESH, Lines(s)) }

  /** Everything the client has seen once the stream is read: one leading byte order mark is dropped,
      the unfinished last line is discarded. */
  function Interpret(s: Bytes): Client {
    Parse(if StartsWithBom(s) then s[3..] else s)
  }

  // How lines and their processing compose.

  lemma {:induction false} ProcessLinesConcat(c: Client, a: seq<Bytes>, b: seq<Bytes>)
    ensures ProcessLines(c, a + b) == ProcessLines(ProcessLines(c, a), b)
    decreases |a|
  {
    if a == [] {
      assert a + b == b;
    } else {
      assert (a + b)[1..] == a[1..] + b;
      ProcessLinesConcat(ProcessLine(c, a[0]), a[1..], b);
    }
  }

  lemma {:induction false} FirstBreakPrefix(p: Bytes, q: Bytes)
    ensures FirstBreak(p) < |p| ==> FirstBreak(p + q) == FirstBreak(p)
  {
    if p != [] && !IsBreak(p[0]) {
      assert (p + q)[1..] == p[1..] + q;
      FirstBreakPrefix(p[1..], q);
    }
  }

  /** Bytes of q that a CR at the end of p does not already claim as one line ending. */
  function Unclaimed(p: Bytes, q: Bytes): Bytes {
    if p != [] && q != [] && p[|p| - 1] == CR && q[0] == LF then q[1..] else q
  }

  predicate AtLineStart(p: Bytes) { p == [] || IsBreak(p[|p| - 1]) }

  lemma {:induction false} FirstBreakExists(p: Bytes)
    requires p != [] && AtLineStart(p)
    ensures FirstBreak(p) < |p|
  {
    NoBreakBeforeFirst(p);
  }

  lemma {:induction false} AfterFirstLineAtLineStart(p: Bytes)
    requires FirstBreak(p) < |p|
    requires AtLineStart(p)
    ensures AtLineStart(AfterFirstLine(p))
  {
  }

  lemma {:induction false} UnclaimedAfterFirstLine(p: Bytes, q: Bytes)
    requires AtLineStart(p) && FirstBreak(p) < |p|
    requires FirstBreak(p + q) == FirstBreak(p) && BreakWidth(p + q, FirstBreak(p)) == BreakWidth(p, FirstBreak(p))
    ensures AfterFirstLine(p + q) == AfterFirstLine(p) + q
    ensures Unclaimed(AfterFirstLine(p), q) == Unclaimed(p, q)
  {
    var n := FirstBreak(p) + BreakWidth(p, FirstBreak(p));
    assert (p + q)[n..] == p[n..] + q;
    var rest := AfterFirstLine(p);
    if rest == [] {
      assert p[|p| - 1] == p[n - 1];
    } else {
      assert rest[|rest| - 1] == p[|p| - 1];
    }
  }

  /** Two streams with the same first line differ by what differs after it. */
  lemma {:induction false} SameFirstLine(whole: Bytes, part: Bytes, line: Bytes, after: Bytes, rest: Bytes,
                                         more: seq<Bytes>)
    requires FirstBreak(whole) < |whole| && line == whole[..FirstBreak(whole)] && after == AfterFirstLine(whole)
    requires FirstBreak(part) < |part| && line == part[..FirstBreak(part)] && rest == AfterFirstLine(part)
    requires Lines(after) == Lines(rest) + more
    ensures Lines(whole) == Lines(part) + more
  {
    assert Lines(whole) == [line] + Lines(after);
    assert Lines(part) == [line] + Lines(rest);
  }

  /** The break in the middle claims the first byte of q. */
  lemma {:induction false} SplitBreak(p: Bytes, q: Bytes)
    requires FirstBreak(p) < |p| && FirstBreak(p + q) == FirstBreak(p)
    requires BreakWidth(p + q, FirstBreak(p)) != BreakWidth(p, FirstBreak(p))
    ensures q != [] && AfterFirstLine(p) == [] && AfterFirstLine(p + q) == q[1..] == Unclaimed(p, q)
  {
    var i := FirstBreak(p);
    assert i + 1 == |p|;
    assert (p + q)[i + 2..] == q[1..];
  }

  /** At a line start, lines of the whole are the lines of the part before followed by those of the
      part after, except that a CR and an LF meeting there are one ending. */
  lemma {:induction false} LinesConcat(p: Bytes, q: Bytes)
    requires AtLineStart(p)
    ensures Lines(p + q) == Lines(p) + Lines(Unclaimed(p, q))
    decreases |p|
  {
    if p == [] {
      assert p + q == q;
      return;
    }
    FirstBreakExists(p);
    FirstBreakPrefix(p, q);
    var line, rest := p[..FirstBreak(p)], AfterFirstLine(p);
    assert line == (p + q)[..FirstBreak(p)];
    if BreakWidth(p + q, FirstBreak(p)) == BreakWidth(p, FirstBreak(p)) {
      UnclaimedAfterFirstLine(p, q);
      AfterFirstLineAtLineStart(p);
      LinesConcat(rest, q);
      SameFirstLine(p + q, p, line, rest + q, rest, Lines(Unclaimed(p, q)));
    } else {
      SplitBreak(p, q);
      assert Lines(q[1..]) == Lines([]) + Lines(q[1..]);
      SameFirstLine(p + q, p, line, q[1..], [], Lines(q[1..]));
    }
  }
}
