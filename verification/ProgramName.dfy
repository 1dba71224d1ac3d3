/** When the arguments survive a program name with quotes in it. The name is read
    by rules that know no escapes, so its quotes can shift what is quoted behind
    them. Such a name is a text the printer accepts, not a Windows file name. */
module ProgramName {
  import opened CommandLine

  function Quotes(text: string): nat {
    if text == "" then 0 else (if text[0] == '"' then 1 else 0) + Quotes(text[1..])
  }

  function AllQuotes(args: seq<string>): nat {
    if args == [] then 0 else Quotes(args[0]) + AllQuotes(args[1..])
  }

  lemma {:induction false} QuotesAdd(a: string, b: string)
    ensures Quotes(a + b) == Quotes(a) + Quotes(b)
  {
    if a == "" {
      assert a + b == b;
    } else {
      QuotesAdd(a[1..], b);
      assert (a + b)[1..] == a[1..] + b;
    }
  }

  lemma {:induction false} AllQuotesAdd(a: seq<string>, b: seq<string>)
    ensures AllQuotes(a + b) == AllQuotes(a) + AllQuotes(b)
  {
    if a == [] {
      assert a + b == b;
    } else {
      AllQuotesAdd(a[1..], b);
      assert (a + b)[1..] == a[1..] + b;
    }
  }

  lemma {:induction false} NoQuotes(text: string)
    requires '"' !in text
    ensures Quotes(text) == 0
  {
    if text != "" {
      assert text[0] in text;
      NoQuotes(text[1..]);
    }
  }

  // ---------------------------------------------------------------- reading on from inside an argument

  /** The arguments read from inside an argument of which `begun` was read already. */
  function Reading(line: string, slashes: nat, quoted: bool, begun: string, pairStays: bool): (r: seq<string>)
    ensures r != []
  {
    var t := TakeArgument(line, slashes, quoted, pairStays);
    [begun + t.argument] + ParseArguments(t.rest, pairStays)
  }

  lemma ReadSlashes(count: nat, line: string, quoted: bool, begun: string, pairStays: bool)
    ensures Reading(Slashes(count) + line, 0, quoted, begun, pairStays) ==
      Reading(line, count, quoted, begun, pairStays)
  {
    HoldSlashes(count, line, 0, quoted, pairStays);
  }

  lemma ReadOther(c: char, line: string, slashes: nat, quoted: bool, begun: string, pairStays: bool)
    requires c != '\\' && c != '"' && (quoted || !Blank(c))
    ensures Reading([c] + line, slashes, quoted, begun, pairStays)
         == Reading(line, 0, quoted, begun + Slashes(slashes) + [c], pairStays)
  {
    var t := TakeArgument(line, 0, quoted, pairStays);
    assert ([c] + line)[1..] == line;
    assert begun + (Slashes(slashes) + [c] + t.argument) == begun + Slashes(slashes) + [c] + t.argument;
  }

  lemma ReadBlank(c: char, line: string, slashes: nat, begun: string, pairStays: bool)
    requires Blank(c)
    ensures Reading([c] + line, slashes, false, begun, pairStays)
         == [begun + Slashes(slashes)] + ParseArguments(line, pairStays)
  {
    assert ([c] + line)[1..] == line;
  }

  lemma ReadEscaped(count: nat, line: string, quoted: bool, begun: string, pairStays: bool)
    ensures Reading("\"" + line, count * 2 + 1, quoted, begun, pairStays)
         == Reading(line, 0, quoted, begun + Slashes(count) + "\"", pairStays)
  {
    var t := TakeArgument(line, 0, quoted, pairStays);
    assert ("\"" + line)[1..] == line;
    assert begun + (Slashes(count) + "\"" + t.argument) == begun + Slashes(count) + "\"" + t.argument;
  }

  lemma ReadToggle(count: nat, line: string, quoted: bool, begun: string, pairStays: bool)
    requires !(quoted && line != "" && line[0] == '"')
    ensures Reading("\"" + line, count * 2, quoted, begun, pairStays)
         == Reading(line, 0, !quoted, begun + Slashes(count), pairStays)
  {
    var t := TakeArgument(line, 0, !quoted, pairStays);
    assert ("\"" + line)[1..] == line;
    assert begun + (Slashes(count) + t.argument) == begun + Slashes(count) + t.argument;
  }

  lemma ReadPair(line: string, begun: string, pairStays: bool)
    ensures Reading("\"\"" + line, 0, true, begun, pairStays) == Reading(line, 0, pairStays, begun + "\"", pairStays)
  {
    var t := TakeArgument(line, 0, pairStays, pairStays);
    assert ("\"\"" + line)[2..] == line;
    assert begun + (Slashes(0) + "\"" + t.argument) == begun + "\"" + t.argument;
  }

  lemma ReadFlush(tail: string, slashes: nat, begun: string, pairStays: bool)
    requires Ends(tail)
    ensures Reading(tail, slashes, true, begun, pairStays) ==
      Reading(tail, 0, true, begun + Slashes(slashes), pairStays)
  {
    if tail == "" {
      assert begun + Slashes(slashes) + Slashes(0) == begun + Slashes(slashes);
    } else {
      assert tail == [tail[0]] + tail[1..];
      ReadOther(tail[0], tail[1..], slashes, true, begun, pairStays);
      ReadOther(tail[0], tail[1..], 0, true, begun + Slashes(slashes), pairStays);
      assert begun + Slashes(slashes) + Slashes(0) + [tail[0]] == begun + Slashes(slashes) + [tail[0]];
    }
  }

  // ---------------------------------------------------------------- a quoted argument read unquoted

  /** Where the reading of a quoted argument leads if it begins outside the quotes:
      past some finished arguments, to the inside of another, `begun` so far. */
  datatype Led = Led(done: seq<string>, begun: string)

  ghost predicate LeadsOn(text: string, slashes: nat, before: string, led: Led) {
    && (led.done == [] ==> led.begun == before + Slashes(slashes) + text)
    && (led.done != [] ==> |led.begun| < slashes + |text|)
    && AllQuotes(led.done) + Quotes(led.begun) == Quotes(before) + Quotes(text)
  }

  lemma SlashesHaveNoQuotes(before: string, slashes: nat, more: string)
    ensures Quotes(before + Slashes(slashes) + more) == Quotes(before) + Quotes(more)
  {
    QuotesAdd(before + Slashes(slashes), more);
    QuotesAdd(before, Slashes(slashes));
    NoQuotes(Slashes(slashes));
  }

  /** One character further on. */
  lemma LeadsFurther(first: char, rest: string, slashes: nat, before: string, led: Led)
    requires LeadsOn(rest, 0, before + Slashes(slashes) + [first], led)
    ensures LeadsOn([first] + rest, slashes, before, led)
  {
    SlashesHaveNoQuotes(before, slashes, [first]);
    QuotesAdd([first], rest);
    assert before + Slashes(slashes) + [first] + Slashes(0) + rest == before + Slashes(slashes) + ([first] + rest);
  }

  lemma LeadsPastSlash(rest: string, slashes: nat, before: string, led: Led)
    requires LeadsOn(rest, slashes + 1, before, led)
    ensures LeadsOn("\\" + rest, slashes, before, led)
  {
    QuotesAdd("\\", rest);
    assert Slashes(slashes + 1) == Slashes(slashes) + "\\";
    assert before + Slashes(slashes + 1) + rest == before + Slashes(slashes) + ("\\" + rest);
  }

  lemma LeadsPastBlank(first: char, rest: string, slashes: nat, before: string, inner: Led)
    requires Blank(first) && |inner.begun| <= |rest|
    requires AllQuotes(inner.done) + Quotes(inner.begun) == Quotes(rest)
    ensures LeadsOn([first] + rest, slashes, before, Led([before + Slashes(slashes)] + inner.done, inner.begun))
  {
    var done := [before + Slashes(slashes)] + inner.done;
    SlashesHaveNoQuotes(before, slashes, "");
    assert before + Slashes(slashes) + "" == before + Slashes(slashes);
    AllQuotesAdd([before + Slashes(slashes)], inner.done);
    QuotesAdd([first], rest);
  }

  lemma {:induction false} InsideUnquoted(text: string, slashes: nat, tail: string, before: string, pairStays: bool)
    returns (led: Led)
    requires Ends(tail)
    ensures Reading(QuotedRest(text, slashes) + tail, 0, false, before, pairStays)
         == led.done + Reading(tail, 0, true, led.begun, pairStays)
    ensures LeadsOn(text, slashes, before, led)
    decreases |text|, 0
  {
    if text == "" {
      led := Led([], before + Slashes(slashes));
      assert Slashes(slashes * 2) + "\"" + tail == Slashes(slashes * 2) + ("\"" + tail);
      ReadSlashes(slashes * 2, "\"" + tail, false, before, pairStays);
      ReadToggle(slashes, tail, false, before, pairStays);
      SlashesHaveNoQuotes(before, slashes, "");
      assert before + Slashes(slashes) + text == before + Slashes(slashes);
    } else {
      var first, rest := text[0], text[1..];
      assert text == [first] + rest;
      var line := QuotedRest(rest, 0) + tail;
      if first == '\\' {
        led := InsideUnquoted(rest, slashes + 1, tail, before, pairStays);
        LeadsPastSlash(rest, slashes, before, led);
      } else if first == '"' {
        Regroup(Slashes(slashes * 2 + 1), "\"", QuotedRest(rest, 0), tail);
        ReadSlashes(slashes * 2 + 1, "\"" + line, false, before, pairStays);
        ReadEscaped(slashes, line, false, before, pairStays);
        led := InsideUnquoted(rest, 0, tail, before + Slashes(slashes) + "\"", pairStays);
        LeadsFurther(first, rest, slashes, before, led);
      } else {
        Regroup(Slashes(slashes), [first], QuotedRest(rest, 0), tail);
        ReadSlashes(slashes, [first] + line, false, before, pairStays);
        if Blank(first) {
          ReadBlank(first, line, slashes, before, pairStays);
          var inner := BetweenUnquoted(rest, tail, pairStays);
          led := Led([before + Slashes(slashes)] + inner.done, inner.begun);
          LeadsPastBlank(first, rest, slashes, before, inner);
        } else {
          ReadOther(first, line, slashes, false, before, pairStays);
          led := InsideUnquoted(rest, 0, tail, before + Slashes(slashes) + [first], pairStays);
          LeadsFurther(first, rest, slashes, before, led);
        }
      }
    }
  }

  lemma {:induction false} BetweenUnquoted(text: string, tail: string, pairStays: bool) returns (led: Led)
    requires Ends(tail)
    ensures ParseArguments(QuotedRest(text, 0) + tail, pairStays) ==
      led.done + Reading(tail, 0, true, led.begun, pairStays)
    ensures |led.begun| <= |text| && AllQuotes(led.done) + Quotes(led.begun) == Quotes(text)
    decreases |text|, 1
  {
    var line := QuotedRest(text, 0) + tail;
    if text != "" && Blank(text[0]) {
      led := BetweenUnquoted(text[1..], tail, pairStays);
      assert line == [text[0]] + (QuotedRest(text[1..], 0) + tail);
      BlankSkipped(text[0], QuotedRest(text[1..], 0) + tail, pairStays);
    } else {
      led := InsideUnquoted(text, 0, tail, "", pairStays);
      FirstPrinted(text, 0);
      ArgumentStarts(QuotedRest(text, 0), tail, pairStays);
      assert "" + Slashes(0) + text == text;
    }
  }

  lemma BlankSkipped(c: char, line: string, pairStays: bool)
    requires Blank(c)
    ensures ParseArguments([c] + line, pairStays) == ParseArguments(line, pairStays)
  {
    assert ([c] + line)[1..] == line;
  }

  lemma ArgumentStarts(printed: string, tail: string, pairStays: bool)
    requires printed != "" && !Blank(printed[0])
    ensures ParseArguments(printed + tail, pairStays) == Reading(printed + tail, 0, false, "", pairStays)
  {
    var t := TakeArgument(printed + tail, 0, false, pairStays);
    assert "" + t.argument == t.argument;
  }

  /** The first character of what is printed of an argument: not a quote, unless
      nothing is left, and a blank only if the argument begins with one. */
  lemma {:induction false} FirstPrinted(text: string, slashes: nat)
    ensures QuotedRest(text, slashes) != ""
    ensures text != "" ==> QuotedRest(text, slashes)[0] != '"'
    ensures Blank(QuotedRest(text, slashes)[0]) ==> text != "" && Blank(text[0]) && slashes == 0
    decreases |text|
  {
    if text != "" && text[0] == '\\' {
      FirstPrinted(text[1..], slashes + 1);
      FirstSlash(text[1..], slashes + 1);
    }
  }

  lemma {:induction false} FirstSlash(text: string, slashes: nat)
    requires slashes > 0
    ensures QuotedRest(text, slashes) != "" && QuotedRest(text, slashes)[0] == '\\'
    decreases |text|
  {
    if text != "" && text[0] == '\\' {
      FirstSlash(text[1..], slashes + 1);
    }
  }

  // ---------------------------------------------------------------- the arguments read the wrong way round

  lemma {:induction false} PlainInside(arg: string, slashes: nat, tail: string, begun: string, pairStays: bool)
    requires Ends(tail) && forall i :: 0 <= i < |arg| ==> NeedsNoQuotes(arg[i])
    ensures Reading(arg + tail, slashes, true, begun, pairStays)
         == Reading(tail, 0, true, begun + Slashes(slashes) + arg, pairStays)
    decreases |arg|
  {
    if arg == "" {
      ReadFlush(tail, slashes, begun, pairStays);
      assert arg + tail == tail && begun + Slashes(slashes) + arg == begun + Slashes(slashes);
    } else {
      var first, rest := arg[0], arg[1..];
      assert arg + tail == [first] + (rest + tail);
      if first == '\\' {
        assert ([first] + (rest + tail))[1..] == rest + tail;
        PlainInside(rest, slashes + 1, tail, begun, pairStays);
        assert begun + Slashes(slashes + 1) + rest == begun + Slashes(slashes) + arg;
      } else {
        ReadOther(first, rest + tail, slashes, true, begun, pairStays);
        PlainInside(rest, 0, tail, begun + Slashes(slashes) + [first], pairStays);
        assert begun + Slashes(slashes) + [first] + Slashes(0) + rest == begun + Slashes(slashes) + arg;
      }
    }
  }

  function Last<T>(s: seq<T>): T
    requires s != []
  {
    s[|s| - 1]
  }

  /** The list is not `args` after so much: its last argument has another length, or
      it holds one quote too many. */
  ghost predicate Astray(read: seq<string>, begun: string, args: seq<string>, pairStays: bool)
    requires read != [] && args != []
  {
    || |Last(read)| != |Last(args)|
    || (!pairStays && AllQuotes(read) == Quotes(begun) + AllQuotes(args) + 1)
  }

  lemma PlainOnward(arg: string, tail: string, begun: string, pairStays: bool)
    requires Ends(tail) && Plain(arg)
    ensures Reading(QuoteOne(arg) + tail, 0, true, begun, pairStays) == Reading(tail, 0, true, begun + arg, pairStays)
    ensures Quotes(begun + arg) == Quotes(begun) && Quotes(arg) == 0
  {
    PlainInside(arg, 0, tail, begun, pairStays);
    assert begun + Slashes(0) + arg == begun + arg;
    assert '"' !in arg by {
      assert forall i :: 0 <= i < |arg| ==> NeedsNoQuotes(arg[i]);
    }
    NoQuotes(arg);
    QuotesAdd(begun, arg);
  }

  lemma EmptyOnward(tail: string, begun: string, pairStays: bool)
    ensures Reading(QuoteOne("") + tail, 0, true, begun, pairStays) ==
      Reading(tail, 0, pairStays, begun + "\"", pairStays)
  {
    assert QuoteOne("") == "\"" + (Slashes(0) + "\"") == "\"\"";
    ReadPair(tail, begun, pairStays);
  }

  lemma QuotedOnward(arg: string, tail: string, begun: string, pairStays: bool) returns (led: Led)
    requires Ends(tail) && !Plain(arg) && arg != ""
    ensures Reading(QuoteOne(arg) + tail, 0, true, begun, pairStays) ==
      led.done + Reading(tail, 0, true, led.begun, pairStays)
    ensures LeadsOn(arg, 0, begun, led)
  {
    FirstPrinted(arg, 0);
    var line := QuotedRest(arg, 0) + tail;
    assert QuoteOne(arg) + tail == "\"" + line;
    assert line[0] == QuotedRest(arg, 0)[0];
    ReadToggle(0, line, true, begun, pairStays);
    assert begun + Slashes(0) == begun;
    led := InsideUnquoted(arg, 0, tail, begun, pairStays);
  }

  lemma SpaceOnward(args: seq<string>, begun: string, pairStays: bool)
    requires args != []
    ensures Reading(QuoteMore(args), 0, true, begun, pairStays)
         == Reading(QuoteOne(args[0]) + QuoteMore(args[1..]), 0, true, begun + " ", pairStays)
    ensures Quotes(begun + " ") == Quotes(begun)
  {
    var line := QuoteOne(args[0]) + QuoteMore(args[1..]);
    assert QuoteMore(args) == [' '] + line;
    ReadOther(' ', line, 0, true, begun, pairStays);
    assert begun + Slashes(0) + [' '] == begun + " ";
    QuotesAdd(begun, " ");
    NoQuotes(" ");
  }

  /** Arguments that are read as if a quote were open before them come out wrong. */
  lemma {:induction false} ReadAstray(args: seq<string>, begun: string, pairStays: bool)
    requires args != []
    ensures Astray(Reading(QuoteMore(args), 0, true, begun, pairStays), begun, args, pairStays)
    decreases |args|
  {
    var arg, tail, spaced := args[0], QuoteMore(args[1..]), begun + " ";
    MoreReadBack(args[1..], pairStays);
    SpaceOnward(args, begun, pairStays);
    if Plain(arg) {
      PlainOnward(arg, tail, spaced, pairStays);
      GoAstray(args, begun, Led([], spaced + arg), pairStays);
      var read := Reading(tail, 0, true, spaced + arg, pairStays);
      assert [] + read == read;
    } else if arg == "" {
      EmptyOnward(tail, spaced, pairStays);
      EmptyAstray(args, begun, pairStays);
    } else {
      var led := QuotedOnward(arg, tail, spaced, pairStays);
      assert spaced + Slashes(0) + arg == spaced + arg;
      GoAstray(args, begun, led, pairStays);
    }
  }

  /** From behind the first argument on, with the quotes still the wrong way round. */
  lemma {:induction false} GoAstray(args: seq<string>, begun: string, led: Led, pairStays: bool)
    requires args != [] && |led.begun| != |args[0]|
    requires AllQuotes(led.done) + Quotes(led.begun) == Quotes(begun) + Quotes(args[0])
    ensures Astray(led.done + Reading(QuoteMore(args[1..]), 0, true, led.begun, pairStays), begun, args, pairStays)
    decreases |args|, 0
  {
    var more := args[1..];
    var read := Reading(QuoteMore(more), 0, true, led.begun, pairStays);
    AllQuotesAdd(led.done, read);
    if more == [] {
      AtTheEnd(true, led.begun, pairStays);
    } else {
      ReadAstray(more, led.begun, pairStays);
      assert Last(args) == Last(more) && Last(led.done + read) == Last(read);
    }
  }

  lemma AtTheEnd(quoted: bool, begun: string, pairStays: bool)
    ensures Reading(QuoteMore([]), 0, quoted, begun, pairStays) == [begun]
  {
    assert begun + Slashes(0) == begun;
  }

  /** Outside quotes again, the arguments that follow are read as they were meant. */
  lemma ReadAgain(args: seq<string>, begun: string, pairStays: bool)
    ensures Reading(QuoteMore(args), 0, false, begun, pairStays) == [begun] + args
  {
    MoreReadBack(args, pairStays);
    var line := QuoteMore(args);
    assert TakeArgument(line, 0, false, pairStays) == Taken(Slashes(0), line);
    assert begun + Slashes(0) == begun;
  }

  /** An empty argument read the wrong way round is a literal quote. */
  lemma {:induction false} EmptyAstray(args: seq<string>, begun: string, pairStays: bool)
    requires args != [] && args[0] == ""
    ensures Astray(Reading(QuoteMore(args[1..]), 0, pairStays, begun + " " + "\"", pairStays), begun, args, pairStays)
    decreases |args|, 0
  {
    var more, led := args[1..], begun + " " + "\"";
    if !pairStays {
      ReadAgain(more, led, pairStays);
      QuotesAdd(begun + " ", "\"");
      QuotesAdd(begun, " ");
      AllQuotesAdd([led], more);
    } else if more == [] {
      AtTheEnd(true, led, pairStays);
    } else {
      ReadAstray(more, led, pairStays);
      assert Last(args) == Last(more);
    }
  }

  // ---------------------------------------------------------------- where the program name ends

  function RestOf(line: string, quoted: bool): string {
    TakeProgram(line, quoted).rest
  }

  /** No blank is reached outside quotes, if reading begins as given. */
  predicate Delimited(text: string, quoted: bool) {
    if text == "" then true
    else if text[0] == '"' then Delimited(text[1..], !quoted)
    else (quoted || !Blank(text[0])) && Delimited(text[1..], quoted)
  }

  predicate Flip(quoted: bool, count: nat) {
    quoted == (count % 2 == 0)
  }

  lemma {:induction false} SkipSlashes(count: nat, rest: string, quoted: bool)
    ensures RestOf(Slashes(count) + rest, quoted) == RestOf(rest, quoted)
  {
    if count == 0 {
      assert Slashes(count) + rest == rest;
    } else {
      assert (Slashes(count) + rest)[1..] == Slashes(count - 1) + rest;
      SkipSlashes(count - 1, rest, quoted);
    }
  }

  lemma SkipPrinted(count: nat, c: char, printed: string, tail: string, quoted: bool)
    requires c == '"' || quoted || !Blank(c)
    ensures RestOf(Slashes(count) + ([c] + printed) + tail, quoted) ==
      RestOf(printed + tail, if c == '"' then !quoted else quoted)
  {
    Regroup(Slashes(count), [c], printed, tail);
    SkipSlashes(count, [c] + (printed + tail), quoted);
    assert ([c] + (printed + tail))[1..] == printed + tail;
  }

  lemma SkipClosing(count: nat, tail: string, quoted: bool)
    ensures RestOf(Slashes(count) + "\"" + tail, quoted) == RestOf(tail, !quoted)
  {
    assert Slashes(count) + "\"" + tail == Slashes(count) + ("\"" + tail);
    SkipSlashes(count, "\"" + tail, quoted);
    assert ("\"" + tail)[1..] == tail;
  }

  lemma {:induction false} PassesThrough(text: string, slashes: nat, tail: string, quoted: bool)
    requires Delimited(text, quoted)
    ensures RestOf(QuotedRest(text, slashes) + tail, quoted) == RestOf(tail, !Flip(quoted, Quotes(text)))
    decreases |text|
  {
    if text == "" {
      SkipClosing(slashes * 2, tail, quoted);
    } else if text[0] == '\\' {
      PassesThrough(text[1..], slashes + 1, tail, quoted);
    } else if text[0] == '"' {
      SkipPrinted(slashes * 2 + 1, '"', QuotedRest(text[1..], 0), tail, quoted);
      PassesThrough(text[1..], 0, tail, !quoted);
    } else {
      SkipPrinted(slashes, text[0], QuotedRest(text[1..], 0), tail, quoted);
      PassesThrough(text[1..], 0, tail, quoted);
    }
  }

  /** `text` is cut at a blank outside quotes: `before`, the blank, `after`. */
  datatype Cut = Cut(before: string, blank: char, after: string)

  ghost predicate CutsAt(text: string, quoted: bool, cut: Cut) {
    text == cut.before + [cut.blank] + cut.after && Blank(cut.blank) && !Flip(quoted, Quotes(cut.before))
  }

  lemma CutLater(first: char, text: string, quoted: bool, cut: Cut)
    requires CutsAt(text, if first == '"' then !quoted else quoted, cut)
    ensures CutsAt([first] + text, quoted, cut.(before := [first] + cut.before))
  {
    QuotesAdd([first], cut.before);
    assert [first] + text == [first] + cut.before + [cut.blank] + cut.after;
  }

  lemma {:induction false} StopsWithin(text: string, slashes: nat, tail: string, quoted: bool) returns (cut: Cut)
    requires !Delimited(text, quoted)
    ensures CutsAt(text, quoted, cut)
    ensures RestOf(QuotedRest(text, slashes) + tail, quoted) == [cut.blank] + (QuotedRest(cut.after, 0) + tail)
    decreases |text|
  {
    var first, rest := text[0], text[1..];
    assert text == [first] + rest;
    if first == '\\' {
      cut := StopsWithin(rest, slashes + 1, tail, quoted);
      CutLater(first, rest, quoted, cut);
      cut := cut.(before := [first] + cut.before);
    } else if first == '"' {
      SkipPrinted(slashes * 2 + 1, first, QuotedRest(rest, 0), tail, quoted);
      cut := StopsWithin(rest, 0, tail, !quoted);
      CutLater(first, rest, quoted, cut);
      cut := cut.(before := [first] + cut.before);
    } else if !quoted && Blank(first) {
      cut := Cut("", first, rest);
      Regroup(Slashes(slashes), [first], QuotedRest(rest, 0), tail);
      SkipSlashes(slashes, [first] + (QuotedRest(rest, 0) + tail), false);
      assert "" + [first] + rest == text;
    } else {
      SkipPrinted(slashes, first, QuotedRest(rest, 0), tail, quoted);
      cut := StopsWithin(rest, 0, tail, quoted);
      CutLater(first, rest, quoted, cut);
      cut := cut.(before := [first] + cut.before);
    }
  }

  // ---------------------------------------------------------------- a name that is not delimited

  /** What follows a blank of a quoted text, read as arguments, is not what was meant. */
  lemma AfterCut(cut: Cut, args: seq<string>, pairStays: bool) returns (read: seq<string>)
    requires Blank(cut.blank)
    ensures read == ParseArguments([cut.blank] + (QuotedRest(cut.after, 0) + QuoteMore(args)), pairStays) && read != []
    ensures args == [] ==> |Last(read)| <= |cut.after|
    ensures args != [] ==> Astray(read, cut.after, args, pairStays)
  {
    var line := QuotedRest(cut.after, 0) + QuoteMore(args);
    read := ParseArguments([cut.blank] + line, pairStays);
    assert ([cut.blank] + line)[1..] == line;
    MoreReadBack(args, pairStays);
    var led := BetweenUnquoted(cut.after, QuoteMore(args), pairStays);
    var rest := Reading(QuoteMore(args), 0, true, led.begun, pairStays);
    assert Last(led.done + rest) == Last(rest);
    if args == [] {
      AtTheEnd(true, led.begun, pairStays);
    } else {
      ReadAstray(args, led.begun, pairStays);
      AllQuotesAdd(led.done, rest);
    }
  }

  lemma AstrayDiffers(read: seq<string>, begun: string, args: seq<string>, pairStays: bool)
    requires read != [] && args != [] && Astray(read, begun, args, pairStays)
    ensures read != args
  {
  }

  lemma QuoteSkipped(printed: string, tail: string, quoted: bool)
    ensures RestOf("\"" + printed + tail, quoted) == RestOf(printed + tail, !quoted)
  {
    assert ("\"" + printed + tail)[1..] == printed + tail;
  }

  lemma CutName(executable: string, args: seq<string>, pairStays: bool)
    requires !Delimited(executable, true)
    ensures ParseArguments(RestOf(QuotedRest(executable, 0) + QuoteMore(args), true), pairStays) != args
  {
    var cut := StopsWithin(executable, 0, QuoteMore(args), true);
    var read := AfterCut(cut, args, pairStays);
    if args != [] {
      AstrayDiffers(read, cut.after, args, pairStays);
    }
  }

  // ---------------------------------------------------------------- a name with an odd number of quotes

  /** How the name ends that was left open before the arguments. */
  datatype Stop = AtEnd | BeforeArgument(index: nat) | Within(index: nat, cut: Cut)

  ghost predicate StopsAt(args: seq<string>, rest: string, stop: Stop) {
    match stop
    case AtEnd => rest == ""
    case BeforeArgument(index) => 0 < index < |args| && rest == QuoteMore(args[index..])
    case Within(index, cut) =>
      && index < |args| && Blank(cut.blank) && args[index] == cut.before + [cut.blank] + cut.after
      && (AllQuotes(args[..index]) + Quotes(cut.before)) % 2 == 0
      && rest == [cut.blank] + (QuotedRest(cut.after, 0) + QuoteMore(args[index + 1..]))
  }

  lemma StopsLater(args: seq<string>, rest: string, stop: Stop) returns (later: Stop)
    requires args != [] && Quotes(args[0]) % 2 == 0 && StopsAt(args[1..], rest, stop)
    ensures StopsAt(args, rest, later)
  {
    match stop
    case AtEnd => later := AtEnd;
    case BeforeArgument(index) =>
      later := BeforeArgument(index + 1);
      assert args[index + 1..] == args[1..][index..];
    case Within(index, cut) =>
      later := Within(index + 1, cut);
      OneArgumentLater(args, index);
  }

  lemma OneArgumentLater(args: seq<string>, index: nat)
    requires index + 1 < |args|
    ensures AllQuotes(args[..index + 1]) == Quotes(args[0]) + AllQuotes(args[1..][..index])
    ensures args[index + 2..] == args[1..][index + 1..] && args[1..][index] == args[index + 1]
  {
    assert args[..index + 1] == [args[0]] + args[1..][..index];
  }

  lemma {:induction false} PlainSkipped(arg: string, tail: string)
    requires forall i :: 0 <= i < |arg| ==> NeedsNoQuotes(arg[i])
    ensures RestOf(arg + tail, true) == RestOf(tail, true)
  {
    if arg == "" {
      assert arg + tail == tail;
    } else {
      assert (arg + tail)[1..] == arg[1..] + tail;
      PlainSkipped(arg[1..], tail);
    }
  }

  lemma SpaceSkipped(args: seq<string>)
    requires args != []
    ensures RestOf(QuoteMore(args), true) == RestOf(QuoteOne(args[0]) + QuoteMore(args[1..]), true)
  {
    SpaceFirst(QuoteOne(args[0]), QuoteMore(args[1..]));
  }

  lemma SpaceFirst(printed: string, tail: string)
    ensures RestOf(" " + printed + tail, true) == RestOf(printed + tail, true)
  {
    assert (" " + printed + tail)[1..] == printed + tail;
  }

  lemma OpensArgument(args: seq<string>)
    requires args != []
    ensures RestOf(QuoteMore(args), true) ==
      if Plain(args[0]) then RestOf(args[0] + QuoteMore(args[1..]), true)
      else RestOf(QuotedRest(args[0], 0) + QuoteMore(args[1..]), false)
  {
    SpaceSkipped(args);
    if !Plain(args[0]) {
      QuoteSkipped(QuotedRest(args[0], 0), QuoteMore(args[1..]), true);
    }
  }

  lemma StopsHere(args: seq<string>) returns (stop: Stop)
    requires args != [] && !Plain(args[0]) && !Delimited(args[0], false)
    ensures StopsAt(args, RestOf(QuoteMore(args), true), stop)
  {
    OpensArgument(args);
    var cut := StopsWithin(args[0], 0, QuoteMore(args[1..]), false);
    stop := Within(0, cut);
    assert args[..0] == [] && AllQuotes([]) == 0;
    assert args[0 + 1..] == args[1..];
  }

  lemma {:induction false} OpenNameStops(args: seq<string>) returns (stop: Stop)
    ensures StopsAt(args, RestOf(QuoteMore(args), true), stop)
  {
    if args == [] {
      stop := AtEnd;
    } else {
      var arg, tail := args[0], QuoteMore(args[1..]);
      OpensArgument(args);
      if Plain(arg) {
        PlainSkipped(arg, tail);
        PlainOnward(arg, "", "", false);
        stop := OpenNameStops(args[1..]);
        stop := StopsLater(args, RestOf(QuoteMore(args), true), stop);
      } else if !Delimited(arg, false) {
        stop := StopsHere(args);
      } else {
        PassesThrough(arg, 0, tail, false);
        if Quotes(arg) % 2 == 0 {
          stop := OpenNameStops(args[1..]);
          stop := StopsLater(args, RestOf(QuoteMore(args), true), stop);
        } else {
          MoreReadBack(args[1..], false);
          stop := if args[1..] == [] then AtEnd else BeforeArgument(1);
        }
      }
    }
  }

  lemma OpenName(args: seq<string>, pairStays: bool)
    requires args != []
    ensures ParseArguments(RestOf(QuoteMore(args), true), pairStays) != args
  {
    var stop := OpenNameStops(args);
    StoppedDiffers(args, RestOf(QuoteMore(args), true), stop, pairStays);
  }

  lemma StoppedDiffers(args: seq<string>, rest: string, stop: Stop, pairStays: bool)
    requires args != [] && StopsAt(args, rest, stop)
    ensures ParseArguments(rest, pairStays) != args
  {
    match stop
    case AtEnd =>
    case BeforeArgument(index) => MoreReadBack(args[index..], pairStays);
    case Within(index, cut) => StrayWithin(args, index, cut, rest, pairStays);
  }

  lemma QuotesAroundCut(args: seq<string>, index: nat, cut: Cut)
    requires index < |args| && args[index] == cut.before + [cut.blank] + cut.after && Blank(cut.blank)
    ensures AllQuotes(args) ==
      AllQuotes(args[..index]) + Quotes(cut.before) + Quotes(cut.after) + AllQuotes(args[index + 1..])
  {
    var more := args[index + 1..];
    assert args == args[..index] + ([args[index]] + more);
    AllQuotesAdd(args[..index], [args[index]] + more);
    AllQuotesAdd([args[index]], more);
    QuotesAdd(cut.before + [cut.blank], cut.after);
    QuotesAdd(cut.before, [cut.blank]);
  }

  /** An even number of quotes is lost before the cut; one too many is read after it. */
  lemma StrayWithin(args: seq<string>, index: nat, cut: Cut, rest: string, pairStays: bool)
    requires index < |args| && Blank(cut.blank) && args[index] == cut.before + [cut.blank] + cut.after
    requires (AllQuotes(args[..index]) + Quotes(cut.before)) % 2 == 0
    requires rest == [cut.blank] + (QuotedRest(cut.after, 0) + QuoteMore(args[index + 1..]))
    ensures ParseArguments(rest, pairStays) != args
  {
    var read := AfterCut(cut, args[index + 1..], pairStays);
    var more := args[index + 1..];
    QuotesAroundCut(args, index, cut);
    if more == [] {
      assert Last(args) == args[index];
      StrayLast(args, read, cut.after);
    } else {
      StrayMore(args, more, read, cut.after, AllQuotes(args[..index]) + Quotes(cut.before), pairStays);
    }
  }

  lemma StrayLast(args: seq<string>, read: seq<string>, after: string)
    requires args != [] && read != [] && |Last(read)| <= |after| < |Last(args)|
    ensures read != args
  {
  }

  lemma StrayMore(args: seq<string>, more: seq<string>, read: seq<string>, after: string, lost: nat, pairStays: bool)
    requires args != [] && more != [] && Last(args) == Last(more) && read != [] && Astray(read, after, more, pairStays)
    requires lost % 2 == 0 && AllQuotes(args) == lost + Quotes(after) + AllQuotes(more)
    ensures read != args
  {
  }

  // ---------------------------------------------------------------- exactly when the arguments survive

  /** No blank of the name follows an odd number of its quotes, and the number of its
      quotes is even or there are no arguments. */
  predicate ArgumentsSurvive(executable: string, args: seq<string>) {
    Delimited(executable, true) && (Quotes(executable) % 2 == 0 || args == [])
  }

  lemma {:induction false} PlainDelimited(text: string)
    requires '"' !in text
    ensures Delimited(text, true)
  {
    if text != "" {
      assert text[0] in text;
      PlainDelimited(text[1..]);
    }
  }

  /** The created process sees the arguments it was meant to see exactly then. */
  lemma ArgumentsSurviveExactly(executable: string, args: seq<string>, pairStays: bool)
    ensures ParseCommandLine(QuoteAll([executable] + args), pairStays)[1..] == args <==>
      ArgumentsSurvive(executable, args)
  {
    var tail := QuoteMore(args);
    assert ([executable] + args)[1..] == args;
    assert QuoteAll([executable] + args) == QuoteOne(executable) + tail;
    MoreReadBack(args, pairStays);
    if '"' !in executable {
      PlainDelimited(executable);
      NoQuotes(executable);
      CommandReadBack(executable, args, pairStays);
    } else {
      assert !Plain(executable) by {
        var i :| 0 <= i < |executable| && executable[i] == '"';
        assert !NeedsNoQuotes(executable[i]);
      }
      QuotedNameExactly(executable, args, pairStays);
    }
  }

  lemma QuotedNameExactly(executable: string, args: seq<string>, pairStays: bool)
    requires !Plain(executable)
    ensures ParseArguments(RestOf(QuoteOne(executable) + QuoteMore(args), false), pairStays) == args
      <==> ArgumentsSurvive(executable, args)
  {
    QuoteSkipped(QuotedRest(executable, 0), QuoteMore(args), false);
    if !Delimited(executable, true) {
      CutName(executable, args, pairStays);
    } else {
      PassesThrough(executable, 0, QuoteMore(args), true);
      if Quotes(executable) % 2 == 0 {
        MoreReadBack(args, pairStays);
      } else if args != [] {
        OpenName(args, pairStays);
      }
    }
  }

  /** A single quote in the name always shifts what follows: `a"b` swallows its
      argument `x`. */
  lemma OneQuoteSwallows(before: string, after: string, args: seq<string>, pairStays: bool)
    requires '"' !in before && '"' !in after && args != []
    ensures ParseCommandLine(QuoteAll([before + "\"" + after] + args), pairStays)[1..] != args
  {
    NoQuotes(before);
    NoQuotes(after);
    QuotesAdd(before + "\"", after);
    QuotesAdd(before, "\"");
    ArgumentsSurviveExactly(before + "\"" + after, args, pairStays);
  }
}
