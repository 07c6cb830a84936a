/** Quoting an argument list for a POSIX shell, and the shell's own way of taking it apart: XCU section
    2.2.1 (escape character), 2.2.2 (single-quotes) and 2.3 (token recognition). */
module ShellQuote {
  import opened Options

  predicate IsSafe(c: char) {
    || 'A' <= c <= 'Z' || 'a' <= c <= 'z' || '0' <= c <= '9'
    || c in "@%+=:,./_-"
  }

  predicate AllSafe(s: string) { forall i :: 0 <= i < |s| ==> IsSafe(s[i]) }

  /** Closes the quotes, adds an escaped single quote and opens them again. */
  function EscapeQuotes(s: string): string {
    if s == "" then "" else (if s[0] == '\'' then "'\\''" else [s[0]]) + EscapeQuotes(s[1..])
  }

  function QuoteShellArg(s: string): string {
    if s != "" && AllSafe(s) then s else "'" + EscapeQuotes(s) + "'"
  }

  function QuoteShellArgv(argv: seq<string>): string {
    if argv == [] then ""
    else if |argv| == 1 then QuoteShellArg(argv[0])
    else QuoteShellArg(argv[0]) + " " + QuoteShellArgv(argv[1..])
  }

  // The shell.

  predicate IsBlank(c: char) { c == ' ' || c == '\t' }

  /** Unquoted, these mean something other than themselves; a shell takes no NUL at all. */
  predicate IsSpecial(c: char) { c in "|&;<>()$`\"*?[#~\n\0" }

  function Append(word: Option<string>, c: char): Option<string> { Some(word.GetOr("") + [c]) }

  /** The words of what is left of a command line. word is the one being read, if any. None stands for
      an input that is more, or less, than a list of words. */
  function Words(input: string, word: Option<string>, inQuotes: bool): Option<seq<string>> {
    if input == "" then
      if inQuotes then None else if word.Some? then Some([word.value]) else Some([])
    else
      var c, rest := input[0], input[1..];
      if c == '\0' then None
      else if inQuotes then
        if c == '\'' then Words(rest, word, false) else Words(rest, Append(word, c), true)
      else if c == '\'' then Words(rest, Some(word.GetOr("")), true)
      else if c == '\\' then
        if rest == "" || rest[0] == '\0' then None
        else if rest[0] == '\n' then Words(rest[1..], word, false)
        else Words(rest[1..], Append(word, rest[0]), false)
      else if IsBlank(c) then
        if word.None? then Words(rest, None, false)
        else
          match Words(rest, None, false)
          case None => None
          case Some(more) => Some([word.value] + more)
      else if IsSpecial(c) then None
      else Words(rest, Append(word, c), false)
  }

  function ShellSplit(input: string): Option<seq<string>> { Words(input, None, false) }

  // One step of the shell.

  lemma {:induction false} StepOver(c: char, tail: string)
    ensures ([c] + tail)[0] == c && ([c] + tail)[1..] == tail
  {
  }

  /** Outside quotes the character stands for itself. */
  predicate IsPlain(c: char) { c != '\'' && c != '\\' && c != '\0' && !IsBlank(c) && !IsSpecial(c) }

  lemma {:induction false} SafeIsPlain(c: char)
    requires IsSafe(c)
    ensures IsPlain(c)
  {
  }

  lemma {:induction false} ReadOnePlain(c: char, tail: string, word: Option<string>)
    requires IsPlain(c)
    ensures Words([c] + tail, word, false) == Words(tail, Append(word, c), false)
  {
    StepOver(c, tail);
  }

  lemma {:induction false} ReadOneQuoted(c: char, tail: string, word: string)
    requires c != '\'' && c != '\0'
    ensures Words([c] + tail, Some(word), true) == Words(tail, Some(word + [c]), true)
  {
    StepOver(c, tail);
  }

  lemma {:induction false} CloseQuotes(tail: string, word: string)
    ensures Words("'" + tail, Some(word), true) == Words(tail, Some(word), false)
  {
    StepOver('\'', tail);
  }

  lemma {:induction false} ReadEscaped(c: char, tail: string, word: string)
    requires c != '\0' && c != '\n'
    ensures Words(['\\'] + ([c] + tail), Some(word), false) == Words(tail, Some(word + [c]), false)
  {
    StepOver('\\', [c] + tail);
    StepOver(c, tail);
  }

  lemma {:induction false} OpenQuotes(tail: string, word: string)
    ensures Words("'" + tail, Some(word), false) == Words(tail, Some(word), true)
  {
    StepOver('\'', tail);
  }

  lemma {:induction false} FirstAndRest(word: string, s: string, rest: string)
    requires s != ""
    ensures s + rest == [s[0]] + (s[1..] + rest) && word + [s[0]] + s[1..] == word + s
  {
  }

  lemma {:induction false} ReadSafe(s: string, word: Option<string>, rest: string)
    requires AllSafe(s) && s != ""
    ensures Words(s + rest, word, false) == Words(rest, Some(word.GetOr("") + s), false)
    decreases |s|
  {
    FirstAndRest(word.GetOr(""), s, rest);
    SafeIsPlain(s[0]);
    ReadOnePlain(s[0], s[1..] + rest, word);
    if |s| == 1 {
      assert s[1..] == "" && "" + rest == rest && s == [s[0]];
    } else {
      ReadSafe(s[1..], Append(word, s[0]), rest);
    }
  }

  lemma {:induction false} ReadEscapedQuote(tail: string, word: string)
    ensures Words("'\\''" + tail, Some(word), true) == Words(tail, Some(word + ['\'']), true)
  {
    var reopened := "'" + tail;
    var escaped := ['\\'] + (['\''] + reopened);
    assert "'\\''" + tail == "'" + escaped;
    CloseQuotes(escaped, word);
    ReadEscaped('\'', reopened, word);
    OpenQuotes(tail, word + ['\'']);
  }

  lemma {:induction false} EscapeFirst(s: string)
    requires s != ""
    ensures EscapeQuotes(s) == (if s[0] == '\'' then "'\\''" else [s[0]]) + EscapeQuotes(s[1..])
  {
  }

  lemma {:induction false} ConcatAssociates(a: string, b: string, c: string, d: string)
    ensures a + b + c + d == a + (b + c + d)
  {
  }

  /** Between single quotes everything stands for itself, and the closing quote goes on unquoted. */
  lemma {:induction false} ReadQuoted(s: string, word: string, rest: string)
    requires '\0' !in s
    ensures Words(EscapeQuotes(s) + "'" + rest, Some(word), true) == Words(rest, Some(word + s), false)
    decreases |s|
  {
    if s == "" {
      assert EscapeQuotes(s) + "'" + rest == "'" + rest && word + "" == word;
      CloseQuotes(rest, word);
    } else {
      var tail := EscapeQuotes(s[1..]) + "'" + rest;
      var head := if s[0] == '\'' then "'\\''" else [s[0]];
      EscapeFirst(s);
      ConcatAssociates(head, EscapeQuotes(s[1..]), "'", rest);
      ReadQuoted(s[1..], word + [s[0]], rest);
      FirstAndRest(word, s, rest);
      if s[0] == '\'' { ReadEscapedQuote(tail, word); } else { ReadOneQuoted(s[0], tail, word); }
    }
  }

  lemma {:induction false} ReadArg(s: string, rest: string)
    requires '\0' !in s
    ensures Words(QuoteShellArg(s) + rest, None, false) == Words(rest, Some(s), false)
  {
    assert "" + s == s;
    if s != "" && AllSafe(s) {
      ReadSafe(s, None, rest);
    } else {
      var body := EscapeQuotes(s) + "'" + rest;
      assert QuoteShellArg(s) + rest == "'" + body && ("'" + body)[1..] == body;
      ReadQuoted(s, "", rest);
    }
  }

  lemma {:induction false} QuoteFirst(argv: seq<string>)
    requires |argv| > 1
    ensures QuoteShellArgv(argv) == QuoteShellArg(argv[0]) + (" " + QuoteShellArgv(argv[1..]))
  {
    var first, more := QuoteShellArg(argv[0]), QuoteShellArgv(argv[1..]);
    assert first + " " + more == first + (" " + more);
  }

  lemma {:induction false} SplitFirst(argv: seq<string>)
    requires |argv| > 1 && '\0' !in argv[0] && ShellSplit(QuoteShellArgv(argv[1..])) == Some(argv[1..])
    ensures ShellSplit(QuoteShellArgv(argv)) == Some(argv)
  {
    QuoteFirst(argv);
    ReadOneMore(argv[0], QuoteShellArgv(argv[1..]));
    assert argv == [argv[0]] + argv[1..];
  }

  /** The shell gives back exactly the list, empty strings, quotes, blanks and newlines included. */
  lemma {:induction false} SplitGivesBackArgv(argv: seq<string>)
    requires forall arg :: arg in argv ==> '\0' !in arg
    ensures ShellSplit(QuoteShellArgv(argv)) == Some(argv)
  {
    if |argv| == 1 {
      ReadLast(argv[0]);
      assert argv == [argv[0]];
    } else if argv != [] {
      SplitGivesBackArgv(argv[1..]);
      SplitFirst(argv);
    }
  }

  lemma {:induction false} ReadLast(last: string)
    requires '\0' !in last
    ensures ShellSplit(QuoteShellArg(last)) == Some([last])
  {
    ReadArg(last, "");
    assert QuoteShellArg(last) + "" == QuoteShellArg(last);
  }

  lemma {:induction false} ReadOneMore(first: string, more: string)
    requires '\0' !in first && ShellSplit(more).Some?
    ensures ShellSplit(QuoteShellArg(first) + (" " + more)) == Some([first] + ShellSplit(more).value)
  {
    ReadArg(first, " " + more);
    assert (" " + more)[1..] == more;
  }

  /** The characters of /[A-Za-z0-9@%+=:,.\/_-]/. */
  predicate NeedsNoQuotes(c: char) {
    || c == '@' || c == '%' || c == '+' || c == '=' || c == ':' || c == ',' || c == '.' || c == '/' || c == '_'
    || c == '-' || 48 <= c as int <= 57 || 65 <= c as int <= 90 || 97 <= c as int <= 122
  }

  /** An argument is left as it is exactly if it has characters and none of them needs quotes. */
  lemma {:induction false} LeftAsItIsIff(s: string)
    ensures QuoteShellArg(s) == s <==> s != "" && forall i :: 0 <= i < |s| ==> NeedsNoQuotes(s[i])
  {
    forall i | 0 <= i < |s| ensures IsSafe(s[i]) <==> NeedsNoQuotes(s[i]) {
      SafeIff(s[i]);
    }
    EscapesAreNoShorter(s);
  }

  lemma {:induction false} SafeIff(c: char)
    ensures IsSafe(c) <==> NeedsNoQuotes(c)
  {
  }

  lemma {:induction false} EscapesAreNoShorter(s: string)
    ensures |EscapeQuotes(s)| >= |s|
  {
    if s != "" { EscapesAreNoShorter(s[1..]); }
  }

  /** A NUL cannot be quoted: it survives quoting, and no shell takes it. */
  lemma {:induction false} NulIsRefused(input: string, word: Option<string>, inQuotes: bool)
    requires '\0' in input
    ensures Words(input, word, inQuotes) == None
    decreases |input|
  {
    var c, rest := input[0], input[1..];
    if c != '\0' {
      assert '\0' in rest;
      if inQuotes {
        NulIsRefused(rest, if c == '\'' then word else Append(word, c), c != '\'');
      } else if c == '\'' {
        NulIsRefused(rest, Some(word.GetOr("")), true);
      } else if c == '\\' {
        if rest[0] != '\0' {
          assert '\0' in rest[1..];
          NulIsRefused(rest[1..], if rest[0] == '\n' then word else Append(word, rest[0]), false);
        }
      } else if IsBlank(c) {
        NulIsRefused(rest, None, false);
      } else if !IsSpecial(c) {
        NulIsRefused(rest, Append(word, c), false);
      }
    }
  }

  lemma {:induction false} EscapeKeepsNul(s: string)
    ensures '\0' in s ==> '\0' in EscapeQuotes(s)
  {
    if s != "" { EscapeKeepsNul(s[1..]); }
  }

  lemma {:induction false} QuotingKeepsNul(argv: seq<string>, arg: string)
    requires arg in argv && '\0' in arg
    ensures '\0' in QuoteShellArgv(argv)
  {
    EscapeKeepsNul(argv[0]);
    if argv[0] == arg {
      assert '\0' in QuoteShellArg(arg);
    } else {
      QuotingKeepsNul(argv[1..], arg);
    }
  }

  lemma {:induction false} SplitGivesBackIffNulFree(argv: seq<string>)
    ensures ShellSplit(QuoteShellArgv(argv)) == Some(argv) <==> forall arg :: arg in argv ==> '\0' !in arg
  {
    if arg :| arg in argv && '\0' in arg {
      QuotingKeepsNul(argv, arg);
      NulIsRefused(QuoteShellArgv(argv), None, false);
    } else {
      SplitGivesBackArgv(argv);
    }
  }
}
