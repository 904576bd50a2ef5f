/** Windows argument quoting for the elevated relaunch (src/bin/windows_elevation/mod.rs).

    The printer turns an argument list into one NUL-terminated wide string. The parser below
    follows the documented CommandLineToArgvW rules and is written without reference to the
    printer; `RoundTrip` connects the two for every list of NUL-free arguments.
 */
module CommandLine {
  type CodeUnit = unit: int | 0 <= unit < 0x1_0000
  type Wide = seq<CodeUnit>

  const NUL: CodeUnit := 0
  const TAB: CodeUnit := 9
  const SPACE: CodeUnit := 32
  const QUOTE: CodeUnit := 34
  const BACKSLASH: CodeUnit := 92

  predicate IsSeparator(unit: CodeUnit) {
    unit == SPACE || unit == TAB
  }

  function Backslashes(n: nat): (s: Wide)
    ensures |s| == n
    ensures forall i :: 0 <= i < n ==> s[i] == BACKSLASH
  {
    if n == 0 then [] else [BACKSLASH] + Backslashes(n - 1)
  }

  // ---------------------------------------------------------------- the documented parser

  /** Length of the run of backslashes that `s` starts with. */
  function LeadingBackslashes(s: Wide): (n: nat)
    ensures n <= |s|
    ensures s[..n] == Backslashes(n)
    ensures n < |s| ==> s[n] != BACKSLASH
  {
    if s == [] || s[0] != BACKSLASH then 0
    else
      var n := LeadingBackslashes(s[1..]);
      assert s[..n + 1] == [s[0]] + s[1..][..n];
      n + 1
  }

  datatype Parsed = Parsed(argument: Wide, rest: Wide)

  function Prepend(prefix: Wide, parsed: Parsed): Parsed {
    Parsed(prefix + parsed.argument, parsed.rest)
  }

  /** What the next `length` units of an argument stand for, and whether a quoted part is open after them. */
  datatype Token = Token(emits: Wide, length: nat, quoted: bool)

  /** 2n backslashes before a quote stand for n backslashes and a quotation mark that opens or
      closes a quoted part; 2n+1 stand for n backslashes and a literal quote; any other backslash
      stands for itself. The MSVC runtime also reads a doubled quote inside a quoted part as one
      literal quote (`doubling`), a rule the CommandLineToArgvW documentation does not have.
   */
  function NextToken(s: Wide, quoted: bool, doubling: bool): (token: Token)
    requires s != []
    ensures 0 < token.length <= |s|
  {
    var n := LeadingBackslashes(s);
    if n < |s| && s[n] == QUOTE then
      if n % 2 == 1 then Token(Backslashes(n / 2) + [QUOTE], n + 1, quoted)
      else if doubling && quoted && n + 1 < |s| && s[n + 1] == QUOTE then
        Token(Backslashes(n / 2) + [QUOTE], n + 2, quoted)
      else Token(Backslashes(n / 2), n + 1, !quoted)
    else if n > 0 then Token(Backslashes(n), n, quoted)
    else Token([s[0]], 1, quoted)
  }

  /** Parses one argument, up to and including the separator that ends it. */
  function ParseOne(s: Wide, quoted: bool, doubling: bool): (parsed: Parsed)
    ensures |parsed.rest| <= |s|
    ensures s != [] ==> |parsed.rest| < |s|
    decreases |s|
  {
    if s == [] then Parsed([], [])
    else if !quoted && IsSeparator(s[0]) then Parsed([], s[1..])
    else
      var token := NextToken(s, quoted, doubling);
      Prepend(token.emits, ParseOne(s[token.length..], token.quoted, doubling))
  }

  function SkipSeparators(s: Wide): (t: Wide)
    ensures |t| <= |s|
    ensures t != [] ==> !IsSeparator(t[0])
  {
    if s != [] && IsSeparator(s[0]) then SkipSeparators(s[1..]) else s
  }

  function ParseArguments(s: Wide, doubling: bool): seq<Wide>
    decreases |s|
  {
    var t := SkipSeparators(s);
    if t == [] then []
    else
      var parsed := ParseOne(t, false, doubling);
      [parsed.argument] + ParseArguments(parsed.rest, doubling)
  }

  /** The part of a wide buffer that a C string reader sees. */
  function CString(buffer: Wide): Wide {
    if buffer == [] || buffer[0] == NUL then [] else [buffer[0]] + CString(buffer[1..])
  }

  // ---------------------------------------------------------------- the printer

  predicate NeedsQuotes(argument: Wide) {
    argument == [] || SPACE in argument || TAB in argument || QUOTE in argument
  }

  /** What is still to be emitted for `argument` with `pending` backslashes held back. */
  function QuotedTail(argument: Wide, pending: nat): Wide
    decreases |argument|
  {
    if argument == [] then Backslashes(2 * pending) + [QUOTE]
    else if argument[0] == BACKSLASH then QuotedTail(argument[1..], pending + 1)
    else Escape(argument[0], pending) + [argument[0]] + QuotedTail(argument[1..], 0)
  }

  /** The backslashes before a unit that is not one: doubled and one more before a quote. */
  function Escape(unit: CodeUnit, pending: nat): Wide {
    Backslashes(if unit == QUOTE then 2 * pending + 1 else pending)
  }

  function Quote(argument: Wide): Wide {
    if NeedsQuotes(argument) then [QUOTE] + QuotedTail(argument, 0) else argument
  }

  function Join(arguments: seq<Wide>): Wide {
    if arguments == [] then []
    else if |arguments| == 1 then Quote(arguments[0])
    else Quote(arguments[0]) + [SPACE] + Join(arguments[1..])
  }

  /** What one unit of a quoted argument adds. */
  lemma QuotedTailStep(argument: Wide, i: nat, pending: nat)
    requires i < |argument|
    ensures QuotedTail(argument[i..], pending)
         == if argument[i] == BACKSLASH then QuotedTail(argument[i + 1..], pending + 1)
            else Escape(argument[i], pending) + [argument[i]] + QuotedTail(argument[i + 1..], 0)
  {
    assert argument[i..][1..] == argument[i + 1..];
  }

  lemma QuotedTailEnd(argument: Wide, pending: nat)
    ensures QuotedTail(argument[|argument|..], pending) == Backslashes(2 * pending) + [QUOTE]
  {
  }

  method AppendQuotedArgument(commandLine: Wide, argument: Wide) returns (extended: Wide)
    ensures extended == commandLine + Quote(argument)
  {
    hide QuotedTail, Backslashes, Escape;
    var needsQuotes := NeedsQuotes(argument);
    if !needsQuotes {
      return commandLine + argument;
    }

    extended := commandLine + [QUOTE];
    var backslashes := 0;
    var i := 0;
    ghost var whole := commandLine + Quote(argument);
    assert argument[0..] == argument;
    assert extended + QuotedTail(argument, 0) == whole;
    while i < |argument|
      invariant 0 <= i <= |argument|
      invariant extended + QuotedTail(argument[i..], backslashes) == whole
    {
      QuotedTailStep(argument, i, backslashes);
      if argument[i] == BACKSLASH {
        backslashes := backslashes + 1;
      } else {
        var escape := Escape(argument[i], backslashes);
        ghost var tail := QuotedTail(argument[i + 1..], 0);
        assert extended + (escape + [argument[i]] + tail) == extended + escape + [argument[i]] + tail;
        extended := extended + escape;
        backslashes := 0;
        extended := extended + [argument[i]];
      }
      i := i + 1;
    }
    QuotedTailEnd(argument, backslashes);
    assert extended + (Backslashes(2 * backslashes) + [QUOTE]) == extended + Backslashes(2 * backslashes) + [QUOTE];
    extended := extended + Backslashes(2 * backslashes);
    extended := extended + [QUOTE];
  }

  lemma QuoteNonEmpty(argument: Wide)
    ensures Quote(argument) != []
  {
  }

  lemma {:induction false} JoinSnoc(arguments: seq<Wide>, last: Wide)
    ensures Join(arguments + [last])
         == if arguments == [] then Quote(last) else Join(arguments) + [SPACE] + Quote(last)
    ensures Join(arguments + [last]) != []
  {
    QuoteNonEmpty(last);
    if arguments != [] {
      assert (arguments + [last])[1..] == arguments[1..] + [last];
      JoinSnoc(arguments[1..], last);
    }
  }

  method BuildCommandLine(arguments: seq<Wide>) returns (commandLine: Wide)
    ensures commandLine == Join(arguments) + [NUL]
  {
    commandLine := [];
    for i := 0 to |arguments|
      invariant commandLine == Join(arguments[..i])
      invariant i > 0 ==> commandLine != []
    {
      assert arguments[..i + 1] == arguments[..i] + [arguments[i]];
      JoinSnoc(arguments[..i], arguments[i]);
      if commandLine != [] {
        commandLine := commandLine + [SPACE];
      }
      commandLine := AppendQuotedArgument(commandLine, arguments[i]);
    }
    assert arguments[..|arguments|] == arguments;
    commandLine := commandLine + [NUL];
  }

  // ---------------------------------------------------------------- round trip

  /** What may follow an argument on the line: nothing, or a separator. */
  predicate Ends(rest: Wide) {
    rest == [] || IsSeparator(rest[0])
  }

  function AfterSeparator(rest: Wide): Wide
    requires Ends(rest)
  {
    if rest == [] then [] else rest[1..]
  }

  lemma {:induction false} LeadingRun(n: nat, tail: Wide)
    requires tail != [] ==> tail[0] != BACKSLASH
    ensures LeadingBackslashes(Backslashes(n) + tail) == n
  {
    var s := Backslashes(n) + tail;
    if n > 0 {
      assert s[1..] == Backslashes(n - 1) + tail;
      LeadingRun(n - 1, tail);
    } else {
      assert s == tail;
    }
  }

  lemma ParseAtEnd(rest: Wide, doubling: bool)
    requires Ends(rest)
    ensures ParseOne(rest, false, doubling) == Parsed([], AfterSeparator(rest))
  {
  }

  /** One step of the parser at a known token. */
  lemma ParseToken(head: Wide, tail: Wide, quoted: bool, doubling: bool, token: Token)
    requires head != [] && (quoted || !IsSeparator(head[0]))
    requires NextToken(head + tail, quoted, doubling) == token && token.length == |head|
    ensures ParseOne(head + tail, quoted, doubling) == Prepend(token.emits, ParseOne(tail, token.quoted, doubling))
  {
    assert (head + tail)[|head|..] == tail;
  }

  /** The ways a run of backslashes can end. */
  lemma ParseEscapedQuote(n: nat, tail: Wide, quoted: bool, doubling: bool)
    ensures ParseOne(Backslashes(2 * n + 1) + ([QUOTE] + tail), quoted, doubling)
         == Prepend(Backslashes(n) + [QUOTE], ParseOne(tail, quoted, doubling))
  {
    hide ParseOne;
    LeadingRun(2 * n + 1, [QUOTE] + tail);
    var head := Backslashes(2 * n + 1) + [QUOTE];
    assert Backslashes(2 * n + 1) + ([QUOTE] + tail) == head + tail;
    ParseToken(head, tail, quoted, doubling, Token(Backslashes(n) + [QUOTE], 2 * n + 2, quoted));
  }

  lemma ParseClosingQuote(n: nat, rest: Wide, doubling: bool)
    requires Ends(rest)
    ensures ParseOne(Backslashes(2 * n) + ([QUOTE] + rest), true, doubling)
         == Parsed(Backslashes(n), AfterSeparator(rest))
  {
    hide ParseOne;
    LeadingRun(2 * n, [QUOTE] + rest);
    var head := Backslashes(2 * n) + [QUOTE];
    assert Backslashes(2 * n) + ([QUOTE] + rest) == head + rest;
    ParseToken(head, rest, true, doubling, Token(Backslashes(n), 2 * n + 1, false));
    ParseAtEnd(rest, doubling);
    assert Backslashes(n) + [] == Backslashes(n);
  }

  lemma ParseLiteralRun(n: nat, tail: Wide, quoted: bool, doubling: bool)
    requires n > 0
    requires tail != [] ==> tail[0] != BACKSLASH && tail[0] != QUOTE
    ensures ParseOne(Backslashes(n) + tail, quoted, doubling)
         == Prepend(Backslashes(n), ParseOne(tail, quoted, doubling))
  {
    hide ParseOne;
    LeadingRun(n, tail);
    ParseToken(Backslashes(n), tail, quoted, doubling, Token(Backslashes(n), n, quoted));
  }

  lemma ParsePlainUnit(unit: CodeUnit, tail: Wide, quoted: bool, doubling: bool)
    requires unit != BACKSLASH && unit != QUOTE && (quoted || !IsSeparator(unit))
    ensures ParseOne([unit] + tail, quoted, doubling) == Prepend([unit], ParseOne(tail, quoted, doubling))
  {
    hide ParseOne;
    ParseToken([unit], tail, quoted, doubling, Token([unit], 1, quoted));
  }

  /** Inside quotes, `pending` held-back backslashes followed by the quoted tail parse back to
      themselves followed by the argument. */
  lemma {:induction false} ParseQuotedTail(argument: Wide, pending: nat, rest: Wide, doubling: bool)
    requires Ends(rest)
    ensures ParseOne(QuotedTail(argument, pending) + rest, true, doubling)
         == Parsed(Backslashes(pending) + argument, AfterSeparator(rest))
    decreases |argument|
  {
    hide ParseOne, Escape;
    var s := QuotedTail(argument, pending) + rest;
    if argument == [] {
      assert s == Backslashes(2 * pending) + ([QUOTE] + rest);
      ParseClosingQuote(pending, rest, doubling);
      assert Backslashes(pending) + argument == Backslashes(pending);
    } else if argument[0] == BACKSLASH {
      ParseQuotedTail(argument[1..], pending + 1, rest, doubling);
      assert Backslashes(pending + 1) + argument[1..] == Backslashes(pending) + argument;
    } else {
      ParseQuotedTail(argument[1..], 0, rest, doubling);
      ParseFlushed(argument, pending, QuotedTail(argument[1..], 0) + rest, AfterSeparator(rest), doubling);
      assert s == Escape(argument[0], pending) + ([argument[0]] + (QuotedTail(argument[1..], 0) + rest));
    }
  }

  lemma ParseFlushed(argument: Wide, pending: nat, tail: Wide, rest: Wide, doubling: bool)
    requires argument != [] && argument[0] != BACKSLASH
    requires ParseOne(tail, true, doubling) == Parsed(Backslashes(0) + argument[1..], rest)
    ensures ParseOne(Escape(argument[0], pending) + ([argument[0]] + tail), true, doubling)
         == Parsed(Backslashes(pending) + argument, rest)
  {
    hide ParseOne;
    assert Backslashes(0) + argument[1..] == argument[1..];
    assert [argument[0]] + argument[1..] == argument;
    if argument[0] == QUOTE {
      ParseEscapedQuote(pending, tail, true, doubling);
      assert Backslashes(pending) + [QUOTE] + argument[1..] == Backslashes(pending) + argument;
    } else {
      ParsePlainUnit(argument[0], tail, true, doubling);
      var plain := [argument[0]] + tail;
      if pending > 0 {
        ParseLiteralRun(pending, plain, true, doubling);
      } else {
        assert Backslashes(0) + plain == plain;
        assert Backslashes(0) + argument == argument;
      }
    }
  }

  /** Outside quotes, units other than separators and quotes stand for themselves. */
  lemma {:induction false} ParseUnquoted(argument: Wide, rest: Wide, doubling: bool)
    requires Ends(rest)
    requires SPACE !in argument && TAB !in argument && QUOTE !in argument
    ensures ParseOne(argument + rest, false, doubling) == Parsed(argument, AfterSeparator(rest))
    decreases |argument|
  {
    hide ParseOne;
    if argument == [] {
      assert argument + rest == rest;
      ParseAtEnd(rest, doubling);
    } else {
      var n := LeadingBackslashes(argument);
      var skip := if n > 0 then n else 1;
      var tail := argument[skip..];
      assert forall unit :: unit in tail ==> unit in argument;
      assert argument == argument[..skip] + tail;
      ParseUnquoted(tail, rest, doubling);
      assert argument + rest == argument[..skip] + (tail + rest);
      if n > 0 {
        ParseLiteralRun(n, tail + rest, false, doubling);
      } else {
        assert argument[..1] == [argument[0]];
        ParsePlainUnit(argument[0], tail + rest, false, doubling);
      }
    }
  }

  lemma ParseQuoted(argument: Wide, rest: Wide, doubling: bool)
    requires Ends(rest)
    ensures ParseOne(Quote(argument) + rest, false, doubling) == Parsed(argument, AfterSeparator(rest))
  {
    hide ParseOne;
    if NeedsQuotes(argument) {
      var tail := QuotedTail(argument, 0) + rest;
      assert Quote(argument) + rest == [QUOTE] + tail;
      ParseToken([QUOTE], tail, false, doubling, Token([], 1, true));
      ParseQuotedTail(argument, 0, rest, doubling);
      assert Backslashes(0) + (Backslashes(0) + argument) == argument;
    } else {
      ParseUnquoted(argument, rest, doubling);
    }
  }

  lemma {:induction false} ParseJoined(arguments: seq<Wide>, doubling: bool)
    ensures ParseArguments(Join(arguments), doubling) == arguments
  {
    if arguments != [] {
      var rest := if |arguments| == 1 then [] else [SPACE] + Join(arguments[1..]);
      var s := Join(arguments);
      assert s == Quote(arguments[0]) + rest;
      ParseQuoted(arguments[0], rest, doubling);
      StartsWithArgument(arguments[0], rest);
      ParseJoined(arguments[1..], doubling);
      assert AfterSeparator(rest) == Join(arguments[1..]);
    }
  }

  lemma StartsWithArgument(argument: Wide, rest: Wide)
    ensures SkipSeparators(Quote(argument) + rest) == Quote(argument) + rest
    ensures Quote(argument) + rest != []
  {
    if !NeedsQuotes(argument) {
      assert argument[0] in argument;
    }
  }

  lemma {:induction false} CStringOf(s: Wide)
    requires NUL !in s
    ensures CString(s + [NUL]) == s
  {
    if s != [] {
      assert (s + [NUL])[1..] == s[1..] + [NUL];
      CStringOf(s[1..]);
    }
  }

  lemma {:induction false} QuotedTailNulFree(argument: Wide, pending: nat)
    requires NUL !in argument
    ensures NUL !in QuotedTail(argument, pending)
    decreases |argument|
  {
    if argument != [] {
      QuotedTailNulFree(argument[1..], pending + 1);
      QuotedTailNulFree(argument[1..], 0);
    }
  }

  lemma {:induction false} JoinNulFree(arguments: seq<Wide>)
    requires forall argument :: argument in arguments ==> NUL !in argument
    ensures NUL !in Join(arguments)
  {
    if arguments != [] {
      QuotedTailNulFree(arguments[0], 0);
      JoinNulFree(arguments[1..]);
    }
  }

  lemma {:induction false} CStringNulFree(buffer: Wide)
    ensures NUL !in CString(buffer)
  {
    if buffer != [] && buffer[0] != NUL {
      CStringNulFree(buffer[1..]);
    }
  }

  lemma {:induction false} ParseOneNulFree(s: Wide, quoted: bool, doubling: bool)
    requires NUL !in s
    ensures NUL !in ParseOne(s, quoted, doubling).argument && NUL !in ParseOne(s, quoted, doubling).rest
    decreases |s|
  {
    if s != [] && (quoted || !IsSeparator(s[0])) {
      var token := NextToken(s, quoted, doubling);
      assert NUL !in token.emits;
      ParseOneNulFree(s[token.length..], token.quoted, doubling);
    }
  }

  lemma {:induction false} SkipSeparatorsNulFree(s: Wide)
    requires NUL !in s
    ensures NUL !in SkipSeparators(s)
  {
    if s != [] && IsSeparator(s[0]) {
      SkipSeparatorsNulFree(s[1..]);
    }
  }

  lemma {:induction false} ParseArgumentsNulFree(s: Wide, doubling: bool)
    requires NUL !in s
    ensures forall argument :: argument in ParseArguments(s, doubling) ==> NUL !in argument
    decreases |s|
  {
    hide ParseOne;
    var t := SkipSeparators(s);
    SkipSeparatorsNulFree(s);
    if t != [] {
      ParseOneNulFree(t, false, doubling);
      ParseArgumentsNulFree(ParseOne(t, false, doubling).rest, doubling);
    }
  }

  /** An argument list survives the relaunch unchanged if and only if no argument contains a NUL,
      whether or not the parser applies the doubled-quote rule. */
  lemma RoundTrip(arguments: seq<Wide>, doubling: bool)
    ensures ParseArguments(CString(Join(arguments) + [NUL]), doubling) == arguments
       <==> forall argument :: argument in arguments ==> NUL !in argument
  {
    hide Join, CString, ParseArguments;
    if forall argument :: argument in arguments ==> NUL !in argument {
      JoinNulFree(arguments);
      CStringOf(Join(arguments));
      ParseJoined(arguments, doubling);
    } else {
      CStringNulFree(Join(arguments) + [NUL]);
      ParseArgumentsNulFree(CString(Join(arguments) + [NUL]), doubling);
    }
  }

  /** Hence distinct argument lists never share a command line. */
  lemma BuildIsInjective(left: seq<Wide>, right: seq<Wide>)
    requires Join(left) == Join(right)
    ensures left == right
  {
    ParseJoined(left, false);
    ParseJoined(right, false);
  }
}
