/** The gateway's keepalive wrapper around a live event stream. */
module SseKeepalive {
  // Chunks pass through unchanged; when the source is silent for an interval, a comment frame goes in,
  // provided the last three bytes say that the source stands right after a blank line.

  import opened EventStream

  const KEEPALIVE_FRAME: Bytes := Ascii(": keepalive\n\n")

  /** A comment line and a blank line, which is all the proofs need to know of the frame. */
  predicate IsCommentFrame(f: Bytes) {
    && |f| > 2 && f[0] == COLON
    && f[|f| - 2] == LF && f[|f| - 1] == LF
    && forall i :: 0 <= i < |f| - 2 ==> !IsBreak(f[i])
  }

  lemma KeepaliveIsCommentFrame()
    ensures IsCommentFrame(KEEPALIVE_FRAME)
  {
  }

  /** Reads a byte the way an out-of-range read in the source does: never equal to any byte. */
  predicate ByteAt(tail: Bytes, i: int, b: Byte) { 0 <= i < |tail| && tail[i] == b }

  predicate EndsWithBlankLine(tail: Bytes) {
    var n := |tail|;
    if ByteAt(tail, n - 1, LF) then
      var end := if ByteAt(tail, n - 2, CR) then n - 2 else n - 1;
      end == 0 || ByteAt(tail, end - 1, LF) || ByteAt(tail, end - 1, CR)
    else if ByteAt(tail, n - 1, CR) then
      n - 1 == 0 || ByteAt(tail, n - 2, LF) || ByteAt(tail, n - 2, CR)
    else false
  }

  function LastThree(s: Bytes): Bytes { if |s| <= 3 then s else s[|s| - 3..] }

  function LastThreeBytes(previous: Bytes, chunk: Bytes): Bytes {
    if |chunk| >= 3 then chunk[|chunk| - 3..] else LastThree(previous + chunk)
  }

  // The wrapper as a value: what its closure remembers and what it has passed on.

  datatype Wrapper = Wrapper(tail: Bytes, atEventBoundary: bool, enqueued: Bytes)

  const OPENED := Wrapper([], true, [])

  datatype Step = Chunk(bytes: Bytes) | TimerFires

  function Next(w: Wrapper, step: Step, frame: Bytes): Wrapper {
    match step
    case Chunk(bytes) =>
      var tail := LastThreeBytes(w.tail, bytes);
      Wrapper(tail, EndsWithBlankLine(tail), w.enqueued + bytes)
    case TimerFires =>
      if w.atEventBoundary then w.(enqueued := w.enqueued + frame) else w
  }

  /** The wrapper after any run of chunks and timer firings. */
  function Run(steps: seq<Step>, frame: Bytes): Wrapper {
    if steps == [] then OPENED else Next(Run(steps[..|steps| - 1], frame), steps[|steps| - 1], frame)
  }

  /** What the source itself sent during a run. */
  function Source(steps: seq<Step>): Bytes {
    if steps == [] then []
    else
      var before := Source(steps[..|steps| - 1]);
      match steps[|steps| - 1]
      case Chunk(bytes) => before + bytes
      case TimerFires => before
  }

  // The wrapper as the source has it, with its timer.

  class KeepaliveStream {
    var timerArmed: bool
    var atEventBoundary: bool
    var tail: Bytes
    var enqueued: Bytes

    function View(): Wrapper
      reads this
    {
      Wrapper(tail, atEventBoundary, enqueued)
    }

    constructor ()
      ensures View() == OPENED && timerArmed
    {
      timerArmed, atEventBoundary, tail, enqueued := true, true, [], [];
    }

    method Pull(chunk: Bytes)
      modifies this
      ensures View() == Next(old(View()), Chunk(chunk), KEEPALIVE_FRAME) && timerArmed
    {
      enqueued := enqueued + chunk;
      tail := LastThreeBytes(tail, chunk);
      atEventBoundary := EndsWithBlankLine(tail);
      timerArmed := true;
    }

    method OnTimer()
      requires timerArmed
      modifies this
      ensures View() == Next(old(View()), TimerFires, KEEPALIVE_FRAME) && timerArmed
    {
      timerArmed := false;
      if atEventBoundary {
        enqueued := enqueued + KEEPALIVE_FRAME;
      }
      timerArmed := true;
    }

    /** The source ended, failed or was cancelled: no frame follows, since OnTimer needs the timer. */
    method Finish()
      modifies this`timerArmed
      ensures !timerArmed
    {
      timerArmed := false;
    }
  }

  // Three bytes decide what the whole stream would.

  predicate EndsInBlankLine(s: Bytes) {
    AtLineStart(s) && Lines(s) != [] && Lines(s)[|Lines(s)| - 1] == []
  }

  lemma TailDecidesAsWhole(s: Bytes)
    ensures EndsWithBlankLine(LastThree(s)) == EndsWithBlankLine(s)
  {
    if |s| > 3 {
      var t := LastThree(s);
      assert t[2] == s[|s| - 1] && t[1] == s[|s| - 2] && t[0] == s[|s| - 3];
    }
  }

  /** Bytes before a complete line ending do not enter the test. */
  lemma TestReadsOnlySuffix(s: Bytes, k: nat)
    requires 0 < k < |s| && IsBreak(s[k - 1]) && !(s[k - 1] == CR && s[k] == LF)
    ensures EndsWithBlankLine(s[k..]) == EndsWithBlankLine(s)
  {
    var rest := s[k..];
    assert rest[|rest| - 1] == s[|s| - 1];
    if |rest| > 1 { assert rest[|rest| - 2] == s[|s| - 2]; }
    if |rest| > 2 { assert rest[|rest| - 3] == s[|s| - 3]; }
  }

  lemma {:induction false} OneLineTest(s: Bytes)
    requires FirstBreak(s) < |s| && AfterFirstLine(s) == []
    ensures EndsWithBlankLine(s) <==> FirstBreak(s) == 0
  {
    NoBreakBeforeFirst(s);
    var i := FirstBreak(s);
    var w := BreakWidth(s, i);
    assert |s| == i + w by { assert |s[i + w..]| == 0; }
    assert i > 0 ==> !IsBreak(s[i - 1]);
  }

  lemma {:induction false} LastLineOfRest(s: Bytes)
    requires FirstBreak(s) < |s| && AtLineStart(s) && AfterFirstLine(s) != []
    ensures AtLineStart(AfterFirstLine(s))
    ensures EndsInBlankLine(s) <==> EndsInBlankLine(AfterFirstLine(s))
  {
    AfterFirstLineAtLineStart(s);
    var rest := AfterFirstLine(s);
    FirstBreakExists(rest);
    assert Lines(s) == [s[..FirstBreak(s)]] + Lines(rest);
  }

  /** The byte test is exact: it holds precisely when the last line ended and was empty. */
  lemma {:induction false} BlankLineTestIsExact(s: Bytes)
    ensures EndsWithBlankLine(s) <==> EndsInBlankLine(s)
    decreases |s|
  {
    if s == [] || !AtLineStart(s) {
      return;
    }
    FirstBreakExists(s);
    if AfterFirstLine(s) == [] {
      OneLineTest(s);
      assert Lines(s) == [s[..FirstBreak(s)]] + Lines([]);
    } else {
      LastLineOfRest(s);
      BlankLineTestIsExact(AfterFirstLine(s));
      TestReadsOnlySuffix(s, FirstBreak(s) + BreakWidth(s, FirstBreak(s)));
    }
  }

  /** The wrapper's memory stays the last three bytes of the source, and its flag the exact answer. */
  lemma {:induction false} BoundaryFlagIsExact(steps: seq<Step>, frame: Bytes)
    ensures Run(steps, frame).tail == LastThree(Source(steps))
    ensures Source(steps) != [] ==> (Run(steps, frame).atEventBoundary <==> EndsInBlankLine(Source(steps)))
  {
    if steps != [] {
      var before := steps[..|steps| - 1];
      BoundaryFlagIsExact(before, frame);
      var source := Source(steps);
      match steps[|steps| - 1]
      case TimerFires =>
      case Chunk(bytes) =>
        assert LastThreeBytes(LastThree(Source(before)), bytes) == LastThree(source);
        TailDecidesAsWhole(source);
        BlankLineTestIsExact(source);
    }
  }

  // A frame right after a blank line, or before anything, tells the client nothing.

  /** No event is under way, and dispatching again would change nothing. */
  predicate Quiet(c: Client) { c.data == [] && c.eventType == [] && c.lastEventId == c.idBuffer }

  lemma {:induction false} FirstBreakAt(s: Bytes, i: nat)
    requires i < |s| && IsBreak(s[i]) && forall j :: 0 <= j < i ==> !IsBreak(s[j])
    ensures FirstBreak(s) == i
  {
    NoBreakBeforeFirst(s);
  }

  lemma {:induction false} FrameLines(f: Bytes)
    requires IsCommentFrame(f)
    ensures Lines(f) == [f[..|f| - 2], []]
  {
    var n := |f|;
    FirstBreakAt(f, n - 2);
    assert AfterFirstLine(f) == [LF];
    assert AfterFirstLine([LF]) == [] && [LF][..0] == [];
    assert Lines([LF]) == [[]] + Lines([]);
  }

  lemma CommentIsIgnored(c: Client, line: Bytes)
    requires line != [] && line[0] == COLON
    ensures ProcessLine(c, line) == c
  {
    assert IndexOf(line, COLON) == 0;
  }

  lemma {:induction false} ProcessTwoLines(c: Client, first: Bytes, second: Bytes)
    ensures ProcessLines(c, [first, second]) == ProcessLine(ProcessLine(c, first), second)
  {
    assert [first, second] == [first] + [second];
    ProcessLinesConcat(c, [first], [second]);
    assert ProcessLines(c, [first]) == ProcessLine(c, first);
    assert ProcessLines(ProcessLine(c, first), [second]) == ProcessLine(ProcessLine(c, first), second);
  }

  lemma {:induction false} FrameKeepsQuietClient(c: Client, f: Bytes)
    requires Quiet(c) && IsCommentFrame(f)
    ensures ProcessLines(c, Lines(f)) == c
  {
    FrameLines(f);
    ProcessTwoLines(c, f[..|f| - 2], []);
    CommentIsIgnored(c, f[..|f| - 2]);
  }

  lemma {:induction false} QuietAfterBlankLine(c: Client, lines: seq<Bytes>)
    requires lines != [] && lines[|lines| - 1] == []
    ensures Quiet(ProcessLines(c, lines))
  {
    var n := |lines|;
    assert lines == lines[..n - 1] + [[]];
    ProcessLinesConcat(c, lines[..n - 1], [[]]);
    assert ProcessLines(ProcessLines(c, lines[..n - 1]), [[]]) == Dispatch(ProcessLines(c, lines[..n - 1]));
  }

  lemma {:induction false} QuietClientSkipsBlank(c: Client, q: Bytes)
    requires Quiet(c) && q != [] && q[0] == LF
    ensures ProcessLines(c, Lines(q)) == ProcessLines(c, Lines(q[1..]))
  {
    assert AfterFirstLine(q) == q[1..];
    assert Lines(q) == [q[..0]] + Lines(q[1..]);
    assert Lines(q)[0] == [] && Lines(q)[1..] == Lines(q[1..]);
  }

  /** What follows a boundary p reads the same whether or not it starts with the LF of a CR LF pair. */
  lemma {:induction false} SuffixAtBoundary(p: Bytes, q: Bytes)
    requires p == [] || EndsInBlankLine(p)
    ensures Quiet(Parse(p))
    ensures Parse(p + q) == ProcessLines(Parse(p), Lines(q))
  {
    if p == [] {
      assert Lines(p) == [];
    } else {
      QuietAfterBlankLine(FRESH, Lines(p));
    }
    LinesConcat(p, q);
    ProcessLinesConcat(FRESH, Lines(p), Lines(Unclaimed(p, q)));
    if Unclaimed(p, q) != q {
      QuietClientSkipsBlank(Parse(p), q);
    }
  }

  lemma FrameAtBoundary(p: Bytes, f: Bytes, q: Bytes)
    requires IsCommentFrame(f)
    requires p == [] || EndsInBlankLine(p)
    ensures Parse(p + f + q) == Parse(p + q)
  {
    SuffixAtBoundary(p, q);
    SuffixAtBoundary(p, f + q);
    assert p + f + q == p + (f + q);
    LinesConcat(f, q);
    assert Unclaimed(f, q) == q;
    ProcessLinesConcat(Parse(p), Lines(f), Lines(q));
    FrameKeepsQuietClient(Parse(p), f);
  }

  /** After a line ending, what comes later no longer decides whether a byte order mark leads. */
  lemma BomDecidedByBoundary(p: Bytes, x: Bytes)
    requires p != [] && AtLineStart(p)
    ensures StartsWithBom(p + x) <==> |p| > 3 && p[..3] == BOM
  {
    if StartsWithBom(p + x) {
      var s := p + x;
      assert s[0] == 0xef && s[1] == 0xbb && s[2] == 0xbf;
      assert p[|p| - 1] == s[|p| - 1];
      assert p[..3] == s[..3];
    } else if |p| > 3 {
      assert p[..3] == (p + x)[..3];
    }
  }

  lemma DropBomKeepsBoundary(p: Bytes)
    requires |p| > 3 && p[..3] == BOM && EndsInBlankLine(p)
    ensures p[3..] != [] && EndsInBlankLine(p[3..])
  {
    var r := p[3..];
    BlankLineTestIsExact(p);
    BlankLineTestIsExact(r);
    assert p[..3][2] == p[2] == 0xbf;
    assert r[|r| - 1] == p[|p| - 1];
    if |r| > 1 { assert r[|r| - 2] == p[|p| - 2]; }
    if |r| > 2 { assert r[|r| - 3] == p[|p| - 3]; }
  }

  lemma LeadingFrameParses(f: Bytes, q: Bytes)
    requires IsCommentFrame(f)
    ensures Parse(f + q) == Parse(q)
    ensures !StartsWithBom(f + q)
  {
    assert (f + q)[0] == COLON;
    FrameAtBoundary([], f, q);
    assert [] + f + q == f + q && [] + q == q;
  }

  lemma {:induction false} AppendThree(a: Bytes, b: Bytes, c: Bytes)
    ensures a + (b + c) == a + b + c
  {
  }

  lemma FrameIsInvisible(p: Bytes, f: Bytes, q: Bytes)
    requires IsCommentFrame(f) && EndsInBlankLine(p)
    ensures Interpret(p + (f + q)) == Interpret(p + q)
  {
    BomDecidedByBoundary(p, f + q);
    BomDecidedByBoundary(p, q);
    if StartsWithBom(p + q) {
      DropBomKeepsBoundary(p);
      FrameAtBoundary(p[3..], f, q);
      assert (p + (f + q))[3..] == p[3..] + (f + q) && (p + q)[3..] == p[3..] + q;
      AppendThree(p[3..], f, q);
    } else {
      FrameAtBoundary(p, f, q);
      AppendThree(p, f, q);
    }
  }

  // Whole runs.

  /** Some timer fired before the source had sent a byte, so that a frame leads the stream. */
  predicate FrameLeads(steps: seq<Step>, frame: Bytes) {
    if steps == [] then false
    else
      var before := steps[..|steps| - 1];
      || FrameLeads(before, frame)
      || (steps[|steps| - 1].TimerFires? && Source(before) == [] && Run(before, frame).atEventBoundary)
  }

  lemma {:induction false} TimerStep(steps: seq<Step>, frame: Bytes, later: Bytes)
    requires IsCommentFrame(frame) && Run(steps, frame).atEventBoundary
    requires Source(steps) == [] ==> !StartsWithBom(later)
    ensures Interpret(Source(steps) + (frame + later)) == Interpret(Source(steps) + later)
    ensures StartsWithBom(Source(steps) + (frame + later)) ==> StartsWithBom(Source(steps) + later)
  {
    var source := Source(steps);
    if source == [] {
      assert source + later == later && source + (frame + later) == frame + later;
      assert (frame + later)[0] == COLON;
      LeadingFrameParses(frame, later);
    } else {
      BoundaryFlagIsExact(steps, frame);
      BomDecidedByBoundary(source, frame + later);
      BomDecidedByBoundary(source, later);
      FrameIsInvisible(source, frame, later);
    }
  }

  /** For every chunking, every timer firing and whatever the source sends afterwards, the client sees
      the same through the wrapper as without it, so long as no frame is put before a byte order mark. */
  lemma {:induction false} FramesPreserveMeaning(steps: seq<Step>, frame: Bytes, later: Bytes)
    requires IsCommentFrame(frame)
    requires !StartsWithBom(Source(steps) + later) || !FrameLeads(steps, frame)
    ensures Interpret(Run(steps, frame).enqueued + later) == Interpret(Source(steps) + later)
  {
    if steps == [] { return; }
    var before, last := steps[..|steps| - 1], steps[|steps| - 1];
    var w, source := Run(before, frame), Source(before);
    if last.Chunk? {
      AppendThree(source, last.bytes, later);
      AppendThree(w.enqueued, last.bytes, later);
      FramesPreserveMeaning(before, frame, last.bytes + later);
    } else if !w.atEventBoundary {
      FramesPreserveMeaning(before, frame, later);
    } else {
      assert steps == before + [TimerFires];
      LeadOrSource(before, frame, later);
      TimerStep(before, frame, later);
      FramesPreserveMeaning(before, frame, frame + later);
      AppendThree(w.enqueued, frame, later);
    }
  }

  lemma {:induction false} LeadOrSource(before: seq<Step>, frame: Bytes, later: Bytes)
    requires Run(before, frame).atEventBoundary
    requires !StartsWithBom(Source(before) + later) || !FrameLeads(before + [TimerFires], frame)
    ensures Source(before) == [] ==> !StartsWithBom(later)
    ensures !StartsWithBom(Source(before) + later) || !FrameLeads(before, frame)
  {
    assert (before + [TimerFires])[..|before|] == before;
    assert Source(before) == [] ==> Source(before) + later == later;
  }

  /** The wrapper as deployed, on a source without a byte order mark. */
  lemma {:induction false} KeepalivePreservesMeaning(steps: seq<Step>)
    requires !StartsWithBom(Source(steps))
    ensures Interpret(Run(steps, KEEPALIVE_FRAME).enqueued) == Interpret(Source(steps))
  {
    KeepaliveIsCommentFrame();
    var sent, source := Run(steps, KEEPALIVE_FRAME).enqueued, Source(steps);
    assert sent + [] == sent && source + [] == source;
    FramesPreserveMeaning(steps, KEEPALIVE_FRAME, []);
  }

  function WithoutFirstLine(q: Bytes): Bytes {
    if FirstBreak(q) == |q| then [] else AfterFirstLine(q)
  }

  /** A mark that is content is part of the first line, whose field no longer has a name the client knows. */
  lemma BomAsContent(q: Bytes, s: Bytes)
    requires s == BOM + q
    ensures Parse(s) == Parse(WithoutFirstLine(q))
  {
    PrependToFirstLine(BOM, q);
    var i := FirstBreak(q);
    if i == |q| {
      assert Lines(s) == [] == Lines([]);
    } else {
      PrependKeepsOtherLines(BOM, q, s, i);
      BomLineIsIgnored(FRESH, BOM + q[..i]);
      assert ([BOM + q[..i]] + Lines(AfterFirstLine(q)))[1..] == Lines(AfterFirstLine(q));
    }
  }

  /** Prepending bytes that end no line lengthens the first line and nothing else. */
  lemma {:induction false} PrependToFirstLine(p: Bytes, q: Bytes)
    requires forall j :: 0 <= j < |p| ==> !IsBreak(p[j])
    ensures FirstBreak(p + q) == |p| + FirstBreak(q)
    decreases |p|
  {
    if p == [] {
      assert p + q == q;
    } else {
      assert (p + q)[1..] == p[1..] + q;
      PrependToFirstLine(p[1..], q);
    }
  }

  lemma {:induction false} LinesFrom(s: Bytes, k: nat, w: nat)
    requires k == FirstBreak(s) < |s| && w == BreakWidth(s, k)
    ensures Lines(s) == [s[..k]] + Lines(s[k + w..])
  {
  }

  lemma {:induction false} PrependKeepsOtherLines(p: Bytes, q: Bytes, s: Bytes, i: nat)
    requires s == p + q && i == FirstBreak(q) < |q| && FirstBreak(s) == |p| + i
    ensures Lines(s) == [p + q[..i]] + Lines(AfterFirstLine(q))
  {
    var k, w := |p| + i, BreakWidth(q, i);
    BreakWidthAfterPrefix(p, q, i);
    LinesFrom(s, k, w);
    SlicesAfterPrefix(p, q, i, i + w);
    assert k + w == |p| + (i + w) && s[k + w..] == q[i + w..] == AfterFirstLine(q);
  }

  lemma SlicesAfterPrefix(p: Bytes, q: Bytes, i: nat, n: nat)
    requires i <= |q| && n <= |q|
    ensures (p + q)[..|p| + i] == p + q[..i]
    ensures (p + q)[|p| + n..] == q[n..]
  {
  }

  lemma BreakWidthAfterPrefix(p: Bytes, q: Bytes, i: nat)
    requires i < |q|
    ensures BreakWidth(p + q, |p| + i) == BreakWidth(q, i)
  {
    assert (p + q)[|p| + i] == q[i];
    if i + 1 < |q| { assert (p + q)[|p| + i + 1] == q[i + 1]; }
  }

  lemma BomLineIsIgnored(c: Client, line: Bytes)
    requires BOM <= line
    ensures ProcessLine(c, line) == c
  {
    assert line[0] == 0xef;
    var colon := IndexOf(line, COLON);
    assert colon > 0;
    assert line[..colon][0] == 0xef;
  }

  lemma {:induction false} TimerKeepsParse(steps: seq<Step>, frame: Bytes, later: Bytes)
    requires IsCommentFrame(frame) && Run(steps, frame).atEventBoundary
    ensures Parse(Source(steps) + (frame + later)) == Parse(Source(steps) + later)
  {
    BoundaryFlagIsExact(steps, frame);
    FrameAtBoundary(Source(steps), frame, later);
    AppendThree(Source(steps), frame, later);
  }

  /** Bytes alone, a leading mark taken as content, read the same with and without frames. */
  lemma {:induction false} FramesKeepParse(steps: seq<Step>, frame: Bytes, later: Bytes)
    requires IsCommentFrame(frame)
    ensures Parse(Run(steps, frame).enqueued + later) == Parse(Source(steps) + later)
  {
    if steps == [] { return; }
    var before, last := steps[..|steps| - 1], steps[|steps| - 1];
    var w, source := Run(before, frame), Source(before);
    if last.Chunk? {
      assert source + last.bytes + later == source + (last.bytes + later);
      assert w.enqueued + last.bytes + later == w.enqueued + (last.bytes + later);
      FramesKeepParse(before, frame, last.bytes + later);
    } else if !w.atEventBoundary {
      FramesKeepParse(before, frame, later);
    } else {
      TimerKeepsParse(before, frame, later);
      FramesKeepParse(before, frame, frame + later);
      assert w.enqueued + frame + later == w.enqueued + (frame + later);
    }
  }

  /** What is sent first: the frame that leads, or else what the source sends. */
  lemma {:induction false} LeadingByte(steps: seq<Step>, frame: Bytes)
    requires IsCommentFrame(frame)
    ensures FrameLeads(steps, frame) ==> Run(steps, frame).enqueued != [] && Run(steps, frame).enqueued[0] == COLON
    ensures !FrameLeads(steps, frame) && Source(steps) == [] ==> Run(steps, frame).enqueued == []
  {
    if steps != [] {
      LeadingByte(steps[..|steps| - 1], frame);
    }
  }

  /** Whatever is chunked, fired and sent afterwards: once a frame has led a source with a mark, the client
      reads all but the first line behind the mark, and without the wrapper it reads all of it. */
  lemma {:induction false} LeadingFrameDropsFirstLine(steps: seq<Step>, frame: Bytes, later: Bytes, q: Bytes)
    requires IsCommentFrame(frame) && FrameLeads(steps, frame) && Source(steps) + later == BOM + q
    ensures Interpret(Run(steps, frame).enqueued + later) == Parse(WithoutFirstLine(q))
    ensures Interpret(Source(steps) + later) == Parse(q)
  {
    var sent := Run(steps, frame).enqueued;
    LeadingByte(steps, frame);
    assert (sent + later)[0] == COLON;
    FramesKeepParse(steps, frame, later);
    BomAsContent(q, BOM + q);
    assert (BOM + q)[..3] == BOM && (BOM + q)[3..] == q;
  }

  /** Exactly when the wrapper keeps the meaning of a stream: it has no mark, or no frame leads, or its
      first line says nothing that the rest does not say. */
  lemma {:induction false} MeaningKeptIff(steps: seq<Step>, frame: Bytes, later: Bytes)
    requires IsCommentFrame(frame)
    ensures var whole := Source(steps) + later;
      Interpret(Run(steps, frame).enqueued + later) == Interpret(whole)
      <==> || !StartsWithBom(whole) || !FrameLeads(steps, frame)
           || Parse(whole[3..]) == Parse(WithoutFirstLine(whole[3..]))
  {
    var whole := Source(steps) + later;
    if !StartsWithBom(whole) || !FrameLeads(steps, frame) {
      FramesPreserveMeaning(steps, frame, later);
    } else {
      assert whole == BOM + whole[3..];
      LeadingFrameDropsFirstLine(steps, frame, later, whole[3..]);
    }
  }

  lemma {:induction false} DataAndBlankLine(q: Bytes)
    requires q == DATA + [LF, LF]
    ensures Lines(q) == [DATA, []] && WithoutFirstLine(q) == [LF] && Lines([LF]) == [[]]
  {
    assert q[4] == LF && q[5] == LF;
    FirstBreakAt(q, 4);
    assert AfterFirstLine(q) == [LF] && q[..4] == DATA;
    assert AfterFirstLine([LF]) == [] && [LF][..0] == [];
    assert Lines([LF]) == [[]] + Lines([]);
  }

  /** The loss is real: behind a byte order mark the field line "data" and a blank line are an event, and
      once the timer has fired before the source spoke they are none. */
  lemma {:induction false} FrameBeforeBomCanLoseAnEvent(q: Bytes)
    requires q == DATA + [LF, LF]
    ensures var steps := [TimerFires, Chunk(BOM + q)];
      && Interpret(Source(steps)).events == [Event(Ascii("message"), [], [])]
      && Interpret(Run(steps, KEEPALIVE_FRAME).enqueued).events == []
  {
    var steps := [TimerFires, Chunk(BOM + q)];
    FirstFrameLeads(BOM + q, KEEPALIVE_FRAME);
    KeepaliveIsCommentFrame();
    LeadingFrameDropsFirstLine(steps, KEEPALIVE_FRAME, [], q);
    var sent := Run(steps, KEEPALIVE_FRAME).enqueued;
    assert sent + [] == sent && Source(steps) + [] == Source(steps);
    DataIsEvent(q);
  }

  lemma {:induction false} FirstFrameLeads(bytes: Bytes, frame: Bytes)
    ensures FrameLeads([TimerFires, Chunk(bytes)], frame) && Source([TimerFires, Chunk(bytes)]) == bytes
  {
    var steps := [TimerFires, Chunk(bytes)];
    assert steps[..1] == [TimerFires] && [TimerFires][..0] == [];
    assert FrameLeads([TimerFires], frame) && Source([TimerFires]) == [];
  }

  lemma {:induction false} DataIsEvent(q: Bytes)
    requires q == DATA + [LF, LF]
    ensures Parse(q).events == [Event(Ascii("message"), [], [])] && Parse(WithoutFirstLine(q)).events == []
  {
    DataAndBlankLine(q);
    ProcessTwoLines(FRESH, DATA, []);
    DataLine();
    assert Parse([LF]) == ProcessLines(FRESH, [[]]) == ProcessLine(FRESH, []);
  }

  const DATA: Bytes := Ascii("data")

  lemma DataLine()
    ensures ProcessLine(FRESH, DATA) == FRESH.(data := [LF])
  {
    assert IndexOf(DATA, COLON) == 4;
    assert |Ascii("event")| != |DATA|;
  }
}
