/** Windows command lines: how a list of arguments is printed as one line, and
    Microsoft's published rules for reading such a line back. */
module CommandLine {
  import opened Wrappers

  // ---------------------------------------------------------------- reading (Microsoft's rules)

  predicate Blank(c: char) {
    c == ' ' || c == '\t'
  }

  function Slashes(count: nat): (r: string)
    ensures |r| == count
  {
    seq(count, _ => '\\')
  }

  datatype Taken = Taken(argument: string, rest: string) {
    function Before(text: string): Taken {
      Taken(text + argument, rest)
    }
  }

  /** Read to the end of the current argument, with `slashes` backslashes read
      but not yet interpreted. Before a quote they come in pairs that stand for
      one each, and an odd one makes the quote literal; otherwise they are
      literal. Two quotes inside a quoted part stand for one; runtimes differ on
      whether the quoted part then goes on (`pairStays`). */
  function TakeArgument(line: string, slashes: nat, quoted: bool, pairStays: bool): (t: Taken)
    ensures |t.rest| <= |line|
    decreases |line|
  {
    if line == "" || (!quoted && Blank(line[0])) then Taken(Slashes(slashes), line)
    else if line[0] == '\\' then TakeArgument(line[1..], slashes + 1, quoted, pairStays)
    else if line[0] != '"' then TakeArgument(line[1..], 0, quoted, pairStays).Before(Slashes(slashes) + [line[0]])
    else if slashes % 2 == 1 then TakeArgument(line[1..], 0, quoted, pairStays).Before(Slashes(slashes / 2) + "\"")
    else if quoted && |line| > 1 && line[1] == '"' then
      TakeArgument(line[2..], 0, pairStays, pairStays).Before(Slashes(slashes / 2) + "\"")
    else TakeArgument(line[1..], 0, !quoted, pairStays).Before(Slashes(slashes / 2))
  }

  function ParseArguments(line: string, pairStays: bool): seq<string>
    decreases |line|
  {
    if line == "" then []
    else if Blank(line[0]) then ParseArguments(line[1..], pairStays)
    else
      var t := TakeArgument(line, 0, false, pairStays);
      [t.argument] + ParseArguments(t.rest, pairStays)
  }

  /** The program name has rules of its own: quotes delimit, backslashes are literal. */
  function TakeProgram(line: string, quoted: bool): Taken {
    if line == "" then Taken("", "")
    else if line[0] == '"' then TakeProgram(line[1..], !quoted)
    else if !quoted && Blank(line[0]) then Taken("", line)
    else TakeProgram(line[1..], quoted).Before([line[0]])
  }

  function ParseCommandLine(line: string, pairStays: bool): seq<string> {
    var t := TakeProgram(line, false);
    [t.argument] + ParseArguments(t.rest, pairStays)
  }

  // ---------------------------------------------------------------- printing

  predicate NeedsNoQuotes(c: char) {
    c != ' ' && c != '\t' && c != '\n' && c != '\U{0B}' && c != '"'
  }

  predicate Plain(arg: string) {
    arg != "" && forall i | 0 <= i < |arg| :: NeedsNoQuotes(arg[i])
  }

  /** What remains to be printed of a quoted argument when `arg` remains to be
      read and `slashes` backslashes are held back. */
  function QuotedRest(arg: string, slashes: nat): string
    decreases |arg|
  {
    if arg == "" then Slashes(slashes * 2) + "\""
    else if arg[0] == '\\' then QuotedRest(arg[1..], slashes + 1)
    else if arg[0] == '"' then Slashes(slashes * 2 + 1) + ("\"" + QuotedRest(arg[1..], 0))
    else Slashes(slashes) + ([arg[0]] + QuotedRest(arg[1..], 0))
  }

  function QuoteOne(arg: string): string {
    if Plain(arg) then arg else "\"" + QuotedRest(arg, 0)
  }

  function QuoteMore(args: seq<string>): string {
    if args == [] then "" else " " + QuoteOne(args[0]) + QuoteMore(args[1..])
  }

  function QuoteAll(args: seq<string>): string {
    if args == [] then "" else QuoteOne(args[0]) + QuoteMore(args[1..])
  }

  /** A missing argument is printed as an empty one. */
  function Given(args: seq<Option<string>>): (r: seq<string>)
    ensures |r| == |args|
  {
    seq(|args|, i requires 0 <= i < |args| => if args[i].Some? then args[i].value else "")
  }

  method AppendQuoted(prefix: string, arg: string) returns (result: string)
    ensures result == prefix + "\"" + QuotedRest(arg, 0)
  {
    result := prefix + "\"";
    var slashes := 0;
    for i := 0 to |arg|
      invariant result + QuotedRest(arg[i..], slashes) == prefix + "\"" + QuotedRest(arg, 0)
    {
      var character := arg[i];
      assert arg[i..][0] == character && arg[i..][1..] == arg[i + 1..];
      if character == '\\' {
        slashes := slashes + 1;
      } else if character == '"' {
        result := result + Slashes(slashes * 2 + 1) + "\"";
        slashes := 0;
      } else {
        result := result + Slashes(slashes) + [character];
        slashes := 0;
      }
    }
    assert arg[|arg|..] == "";
    result := result + Slashes(slashes * 2) + "\"";
  }

  lemma Regroup(a: string, b: string, c: string, d: string)
    ensures a + (b + c) + d == a + (b + (c + d))
  {
  }

  lemma QuoteMoreStep(args: seq<string>, index: nat, printed: string)
    requires index < |args|
    ensures printed + " " + QuoteOne(args[index]) + QuoteMore(args[index + 1..]) == printed + QuoteMore(args[index..])
  {
  }

  method AppendOne(prefix: string, arg: string) returns (result: string)
    ensures result == prefix + QuoteOne(arg)
  {
    if Plain(arg) {
      result := prefix + arg;
    } else {
      result := AppendQuoted(prefix, arg);
      assert prefix + "\"" + QuotedRest(arg, 0) == prefix + ("\"" + QuotedRest(arg, 0));
    }
  }

  method QuoteArguments(args: seq<Option<string>>) returns (result: string)
    ensures result == QuoteAll(Given(args))
  {
    result := "";
    ghost var given := Given(args);
    for index := 0 to |args|
      invariant index == 0 ==> result == ""
      invariant index > 0 ==> result + QuoteMore(given[index..]) == QuoteAll(given)
    {
      ghost var before := result;
      if index > 0 {
        QuoteMoreStep(given, index, result);
        result := result + " ";
      } else {
        assert result + QuoteOne(given[0]) == QuoteOne(given[0]);
      }
      result := AppendOne(result, if args[index].Some? then args[index].value else "");
    }
    assert given[|args|..] == [];
  }

  /** The line handed to process creation. */
  method CreateCommand(executable: string, args: seq<string>) returns (command: string)
    ensures command == QuoteAll([executable] + args)
  {
    command := QuoteArguments([Some(executable)]);
    assert Given([Some(executable)]) == [executable];
    assert [executable] + [] == [executable];
    if |args| != 0 {
      var present := seq(|args|, i requires 0 <= i < |args| => Some(args[i]));
      assert Given(present) == args;
      var quoted := QuoteArguments(present);
      command := command + " " + quoted;
      JoinedLine(executable, args);
    }
  }

  lemma JoinedLine(executable: string, args: seq<string>)
    requires args != []
    ensures QuoteAll([executable]) + " " + QuoteAll(args) == QuoteAll([executable] + args)
  {
    var name, first, more := QuoteOne(executable), QuoteOne(args[0]), QuoteMore(args[1..]);
    assert ([executable] + args)[1..] == args;
    assert QuoteAll([executable]) == name + "" == name;
    JoinedText(name, first, more);
  }

  lemma JoinedText(name: string, first: string, more: string)
    ensures name + " " + (first + more) == name + (" " + first + more)
  {
  }

  // ---------------------------------------------------------------- reading what was printed

  /** The end of the line, or the blank before the next argument. */
  predicate Ends(tail: string) {
    tail == "" || Blank(tail[0])
  }

  lemma OneSlashHeld(rest: string, slashes: nat, quoted: bool, pairStays: bool)
    ensures TakeArgument("\\" + rest, slashes, quoted, pairStays) == TakeArgument(rest, slashes + 1, quoted, pairStays)
  {
    assert ("\\" + rest)[1..] == rest;
  }

  lemma {:induction false} HoldSlashes(count: nat, rest: string, slashes: nat, quoted: bool, pairStays: bool)
    ensures TakeArgument(Slashes(count) + rest, slashes, quoted, pairStays) ==
      TakeArgument(rest, slashes + count, quoted, pairStays)
    decreases count
  {
    if count == 0 {
      assert Slashes(count) + rest == rest;
    } else {
      assert Slashes(count) + rest == "\\" + (Slashes(count - 1) + rest);
      OneSlashHeld(Slashes(count - 1) + rest, slashes, quoted, pairStays);
      HoldSlashes(count - 1, rest, slashes + 1, quoted, pairStays);
    }
  }

  /** Reading one printed step of a quoted argument, then what follows it. */
  lemma ReadQuoteStep(slashes: nat, printed: string, tail: string, arg: string, pairStays: bool)
    requires TakeArgument(printed + tail, 0, true, pairStays) == Taken(arg, tail)
    ensures TakeArgument(Slashes(slashes * 2 + 1) + ("\"" + printed) + tail, 0, true, pairStays)
         == Taken(Slashes(slashes) + ("\"" + arg), tail)
  {
    var line := "\"" + (printed + tail);
    Regroup(Slashes(slashes * 2 + 1), "\"", printed, tail);
    HoldSlashes(slashes * 2 + 1, line, 0, true, pairStays);
    assert line[1..] == printed + tail;
    Regroup(Slashes(slashes), "\"", arg, "");
  }

  lemma ReadOtherStep(slashes: nat, c: char, printed: string, tail: string, arg: string, pairStays: bool)
    requires c != '\\' && c != '"' && TakeArgument(printed + tail, 0, true, pairStays) == Taken(arg, tail)
    ensures TakeArgument(Slashes(slashes) + ([c] + printed) + tail, 0, true, pairStays)
         == Taken(Slashes(slashes) + ([c] + arg), tail)
  {
    var line := [c] + (printed + tail);
    Regroup(Slashes(slashes), [c], printed, tail);
    HoldSlashes(slashes, line, 0, true, pairStays);
    assert line[1..] == printed + tail;
    Regroup(Slashes(slashes), [c], arg, "");
  }

  lemma ReadClosing(slashes: nat, tail: string, pairStays: bool)
    requires Ends(tail)
    ensures TakeArgument(Slashes(slashes * 2) + "\"" + tail, 0, true, pairStays) == Taken(Slashes(slashes), tail)
  {
    var line := "\"" + tail;
    assert Slashes(slashes * 2) + "\"" + tail == Slashes(slashes * 2) + line;
    HoldSlashes(slashes * 2, line, 0, true, pairStays);
    assert line[1..] == tail;
  }

  lemma {:induction false} QuotedReadBack(arg: string, slashes: nat, tail: string, pairStays: bool)
    requires Ends(tail)
    ensures TakeArgument(QuotedRest(arg, slashes) + tail, 0, true, pairStays) == Taken(Slashes(slashes) + arg, tail)
    decreases |arg|
  {
    if arg == "" {
      ReadClosing(slashes, tail, pairStays);
    } else {
      var first, rest := arg[0], arg[1..];
      assert arg == [first] + rest;
      if first == '\\' {
        QuotedReadBack(rest, slashes + 1, tail, pairStays);
        assert Slashes(slashes + 1) + rest == Slashes(slashes) + arg;
      } else {
        QuotedReadBack(rest, 0, tail, pairStays);
        assert Slashes(0) + rest == rest;
        if first == '"' {
          ReadQuoteStep(slashes, QuotedRest(rest, 0), tail, rest, pairStays);
        } else {
          ReadOtherStep(slashes, first, QuotedRest(rest, 0), tail, rest, pairStays);
        }
      }
    }
  }

  /** An argument printed without quotes: its backslashes precede no quote. */
  lemma {:induction false} PlainReadBack(arg: string, slashes: nat, tail: string, pairStays: bool)
    requires Ends(tail) && forall i :: 0 <= i < |arg| ==> NeedsNoQuotes(arg[i])
    ensures TakeArgument(arg + tail, slashes, false, pairStays) == Taken(Slashes(slashes) + arg, tail)
    decreases |arg|
  {
    if arg == "" {
      assert arg + tail == tail;
    } else {
      var first, rest := arg[0], arg[1..];
      assert arg == [first] + rest;
      if first == '\\' {
        PlainReadBack(rest, slashes + 1, tail, pairStays);
        PlainSlash(slashes, rest, tail, pairStays);
      } else {
        PlainReadBack(rest, 0, tail, pairStays);
        PlainOther(slashes, first, rest, tail, pairStays);
      }
    }
  }

  lemma PlainSlash(slashes: nat, rest: string, tail: string, pairStays: bool)
    requires TakeArgument(rest + tail, slashes + 1, false, pairStays) == Taken(Slashes(slashes + 1) + rest, tail)
    ensures TakeArgument("\\" + rest + tail, slashes, false, pairStays) == Taken(Slashes(slashes) + ("\\" + rest), tail)
  {
    assert ("\\" + rest + tail)[1..] == rest + tail;
    assert Slashes(slashes + 1) + rest == Slashes(slashes) + ("\\" + rest);
  }

  lemma PlainOther(slashes: nat, c: char, rest: string, tail: string, pairStays: bool)
    requires c != '\\' && NeedsNoQuotes(c)
    requires TakeArgument(rest + tail, 0, false, pairStays) == Taken(Slashes(0) + rest, tail)
    ensures TakeArgument([c] + rest + tail, slashes, false, pairStays) == Taken(Slashes(slashes) + ([c] + rest), tail)
  {
    assert ([c] + rest + tail)[1..] == rest + tail;
    assert Slashes(slashes) + ([c] + rest) == Slashes(slashes) + [c] + (Slashes(0) + rest);
  }

  lemma OneReadBack(arg: string, tail: string, pairStays: bool)
    requires Ends(tail)
    ensures TakeArgument(QuoteOne(arg) + tail, 0, false, pairStays) == Taken(arg, tail)
    ensures QuoteOne(arg) != "" && !Blank(QuoteOne(arg)[0])
  {
    assert Slashes(0) + arg == arg;
    if Plain(arg) {
      PlainReadBack(arg, 0, tail, pairStays);
    } else {
      QuotedReadBack(arg, 0, tail, pairStays);
      OpeningQuote(QuotedRest(arg, 0), tail, arg, pairStays);
    }
  }

  lemma OpeningQuote(printed: string, tail: string, arg: string, pairStays: bool)
    requires TakeArgument(printed + tail, 0, true, pairStays) == Taken(arg, tail)
    ensures TakeArgument("\"" + printed + tail, 0, false, pairStays) == Taken(arg, tail)
  {
    var line := "\"" + printed + tail;
    assert line[1..] == printed + tail;
    assert Slashes(0) + arg == arg;
  }

  lemma ParseOne(printed: string, arg: string, tail: string, more: seq<string>, pairStays: bool)
    requires printed != "" && !Blank(printed[0])
    requires TakeArgument(printed + tail, 0, false, pairStays) == Taken(arg, tail)
    requires ParseArguments(tail, pairStays) == more
    ensures ParseArguments(printed + tail, pairStays) == [arg] + more
  {
  }

  lemma SpaceIsSkipped(printed: string, tail: string, pairStays: bool)
    ensures ParseArguments(" " + printed + tail, pairStays) == ParseArguments(printed + tail, pairStays)
  {
    assert (" " + printed + tail)[1..] == printed + tail;
  }

  lemma {:induction false} MoreReadBack(args: seq<string>, pairStays: bool)
    ensures Ends(QuoteMore(args)) && ParseArguments(QuoteMore(args), pairStays) == args
  {
    if args != [] {
      var one, tail := QuoteOne(args[0]), QuoteMore(args[1..]);
      MoreReadBack(args[1..], pairStays);
      OneReadBack(args[0], tail, pairStays);
      ParseOne(one, args[0], tail, args[1..], pairStays);
      SpaceIsSkipped(one, tail, pairStays);
    }
  }

  /** Whatever the arguments, reading the printed line gives them back. */
  lemma ReadBack(args: seq<string>, pairStays: bool)
    ensures ParseArguments(QuoteAll(args), pairStays) == args
  {
    if args != [] {
      var tail := QuoteMore(args[1..]);
      MoreReadBack(args[1..], pairStays);
      OneReadBack(args[0], tail, pairStays);
      ParseOne(QuoteOne(args[0]), args[0], tail, args[1..], pairStays);
    }
  }

  /** Different argument lists never print alike. */
  lemma QuotingIsInjective(a: seq<string>, b: seq<string>)
    requires QuoteAll(a) == QuoteAll(b)
    ensures a == b
  {
    ReadBack(a, false);
    ReadBack(b, false);
  }

  // ---------------------------------------------------------------- size

  lemma {:induction false} QuotedRestLength(arg: string, slashes: nat)
    ensures |QuotedRest(arg, slashes)| <= 2 * |arg| + 2 * slashes + 1
    decreases |arg|
  {
    if arg != "" {
      QuotedRestLength(arg[1..], if arg[0] == '\\' then slashes + 1 else 0);
    }
  }

  lemma OneLength(arg: string)
    ensures |QuoteOne(arg)| <= 2 * |arg| + 2
  {
    QuotedRestLength(arg, 0);
  }

  /** The characters of all arguments together. */
  function TotalLength(args: seq<string>): nat {
    if args == [] then 0 else |args[0]| + TotalLength(args[1..])
  }

  lemma {:induction false} MoreLength(args: seq<string>)
    ensures |QuoteMore(args)| <= 2 * TotalLength(args) + 3 * |args|
  {
    if args != [] {
      MoreLength(args[1..]);
      OneLength(args[0]);
    }
  }

  lemma LineLength(args: seq<string>)
    ensures |QuoteAll(args)| <= 2 * TotalLength(args) + 3 * |args|
  {
    if args != [] {
      MoreLength(args[1..]);
      OneLength(args[0]);
    }
  }

  /** Only backslashes up to a quote or up to the end. */
  ghost predicate LeadsToQuote(text: string) {
    exists j :: RunsToQuote(text, j)
  }

  ghost predicate RunsToQuote(text: string, j: int) {
    0 <= j <= |text| && (forall k :: 0 <= k < j ==> text[k] == '\\') && (j == |text| || text[j] == '"')
  }

  /** How many characters get a backslash of their own: quotes, and backslashes that
      lead to a quote or to the end. */
  ghost function Escapes(arg: string): nat {
    if arg == "" then 0 else (if LeadsToQuote(arg) then 1 else 0) + Escapes(arg[1..])
  }

  lemma LeadsOn(text: string)
    requires text != ""
    ensures text[0] == '"' ==> LeadsToQuote(text)
    ensures text[0] == '\\' ==> (LeadsToQuote(text) <==> LeadsToQuote(text[1..]))
    ensures text[0] != '"' && text[0] != '\\' ==> !LeadsToQuote(text)
  {
    if text[0] == '"' {
      assert RunsToQuote(text, 0);
    } else if text[0] == '\\' {
      if LeadsToQuote(text) {
        var j :| RunsToQuote(text, j);
        assert RunsToQuote(text[1..], j - 1);
      }
      if LeadsToQuote(text[1..]) {
        var j :| RunsToQuote(text[1..], j);
        assert forall k :: 1 <= k < j + 1 ==> text[k] == text[1..][k - 1];
        assert RunsToQuote(text, j + 1);
      }
    }
  }

  lemma {:induction false} QuotedRestExactly(arg: string, slashes: nat)
    ensures |QuotedRest(arg, slashes)| ==
      slashes + |arg| + 1 + Escapes(arg) + (if LeadsToQuote(arg) then slashes else 0)
    decreases |arg|
  {
    if arg == "" {
      assert RunsToQuote(arg, 0);
    } else {
      LeadsOn(arg);
      QuotedRestExactly(arg[1..], if arg[0] == '\\' then slashes + 1 else 0);
    }
  }

  /** No tab, line feed, vertical tab, space or quote. */
  ghost predicate PrintsAsItIs(arg: string) {
    arg != "" && forall i :: 0 <= i < |arg| ==> arg[i] as int !in {9, 10, 11, 32, 34}
  }

  /** An argument is printed as it is exactly if it is not empty and has none of the
      five characters. */
  lemma UnquotedExactly(arg: string)
    ensures QuoteOne(arg) == arg <==> PrintsAsItIs(arg)
  {
    PlainExactly(arg);
    if !Plain(arg) {
      QuotedRestExactly(arg, 0);
    }
  }

  lemma PlainExactly(arg: string)
    ensures Plain(arg) <==> PrintsAsItIs(arg)
  {
  }

  /** Any other argument grows by two quotes and by one backslash for every quote and
      every backslash that leads to a quote or to the end. */
  lemma QuotedLength(arg: string)
    requires !PrintsAsItIs(arg)
    ensures |QuoteOne(arg)| == |arg| + 2 + Escapes(arg) && QuoteOne(arg)[0] == '"'
  {
    PlainExactly(arg);
    QuotedRestExactly(arg, 0);
  }

  /** The lengths of the printed arguments together. */
  function PrintedLength(args: seq<string>): nat {
    if args == [] then 0 else |QuoteOne(args[0])| + PrintedLength(args[1..])
  }

  lemma {:induction false} MorePrinted(args: seq<string>)
    ensures |QuoteMore(args)| == |args| + PrintedLength(args)
  {
    if args != [] {
      MorePrinted(args[1..]);
    }
  }

  /** Nothing but one character stands between two arguments. */
  lemma LineExactly(args: seq<string>)
    requires args != []
    ensures |QuoteAll(args)| == PrintedLength(args) + (|args| - 1)
  {
    MorePrinted(args[1..]);
  }

  /** A list with missing entries reads back with empty ones in their place. */
  lemma MissingReadsEmpty(args: seq<Option<string>>, pairStays: bool)
    ensures var read := ParseArguments(QuoteAll(Given(args)), pairStays);
      && |read| == |args|
      && forall i :: 0 <= i < |args| ==>
        (args[i].Some? ==> read[i] == args[i].value) && (args[i].None? ==> read[i] == "")
  {
    ReadBack(Given(args), pairStays);
  }

  // ---------------------------------------------------------------- the program name

  lemma {:induction false} ProgramHasNoQuote(line: string, quoted: bool)
    ensures '"' !in TakeProgram(line, quoted).argument
  {
    if line != "" {
      ProgramHasNoQuote(line[1..], if line[0] == '"' then !quoted else quoted);
    }
  }

  lemma {:induction false} ProgramCopies(text: string, rest: string, quoted: bool)
    requires '"' !in text && (quoted || forall i :: 0 <= i < |text| ==> !Blank(text[i]))
    ensures TakeProgram(text + rest, quoted) == TakeProgram(rest, quoted).Before(text)
  {
    if text == "" {
      assert text + rest == rest;
    } else {
      ProgramCopies(text[1..], rest, quoted);
      assert (text + rest)[1..] == text[1..] + rest;
      assert [text[0]] + text[1..] == text;
      assert text[0] in text;
    }
  }

  /** A quoted argument without quotes in it: only its last backslashes are doubled. */
  ghost predicate OnlyEndDoubled(arg: string, slashes: nat, doubled: nat) {
    && QuotedRest(arg, slashes) == Slashes(slashes) + arg + (Slashes(doubled) + "\"")
    && (arg == "" ==> doubled == slashes)
    && (arg != "" ==> (doubled > 0 <==> arg[|arg| - 1] == '\\'))
  }

  lemma {:induction false} QuotedWithoutQuotes(arg: string, slashes: nat) returns (doubled: nat)
    requires '"' !in arg
    ensures OnlyEndDoubled(arg, slashes, doubled)
    decreases |arg|
  {
    if arg == "" {
      doubled := slashes;
      assert Slashes(slashes * 2) == Slashes(slashes) + Slashes(slashes);
    } else {
      var first, rest := arg[0], arg[1..];
      assert first in arg;
      assert arg == [first] + rest;
      doubled := QuotedWithoutQuotes(rest, if first == '\\' then slashes + 1 else 0);
      QuotedStep(first, rest, slashes, doubled);
    }
  }

  lemma QuotedStep(first: char, rest: string, slashes: nat, doubled: nat)
    requires first != '"' && OnlyEndDoubled(rest, if first == '\\' then slashes + 1 else 0, doubled)
    ensures OnlyEndDoubled([first] + rest, slashes, doubled)
  {
  }

  /** The program reads its own name back exactly when the name has no quote and,
      if it had to be quoted, does not end in a backslash. */
  predicate NameSurvives(executable: string) {
    '"' !in executable && (Plain(executable) || executable == "" || executable[|executable| - 1] != '\\')
  }

  lemma QuotedProgram(executable: string, tail: string)
    requires Ends(tail) && '"' !in executable && !Plain(executable)
    ensures TakeProgram(QuoteOne(executable) + tail, false).rest == tail
    ensures TakeProgram(QuoteOne(executable) + tail, false).argument == executable <==> NameSurvives(executable)
  {
    var doubled := QuotedWithoutQuotes(executable, 0);
    TakeQuoted(executable, doubled, QuotedRest(executable, 0), tail);
    assert Slashes(0) + executable == executable;
    assert |executable + Slashes(doubled)| == |executable| + doubled;
    assert executable + Slashes(0) == executable;
  }

  lemma TakeQuoted(text: string, doubled: nat, printed: string, tail: string)
    requires Ends(tail) && '"' !in text && printed == Slashes(0) + text + (Slashes(doubled) + "\"")
    ensures TakeProgram("\"" + printed + tail, false) == Taken(text + Slashes(doubled), tail)
  {
    var closing := "\"" + tail;
    var line := "\"" + printed + tail;
    assert line[1..] == (text + Slashes(doubled)) + closing;
    ProgramCopies(text + Slashes(doubled), closing, true);
    assert closing[1..] == tail;
    assert TakeProgram(closing, true) == Taken("", tail);
  }

  lemma PlainProgram(executable: string, tail: string)
    requires Ends(tail) && Plain(executable)
    ensures TakeProgram(QuoteOne(executable) + tail, false) == Taken(executable, tail)
  {
    assert '"' !in executable by {
      assert forall i :: 0 <= i < |executable| ==> NeedsNoQuotes(executable[i]);
    }
    ProgramCopies(executable, tail, false);
    assert TakeProgram(tail, false) == Taken("", tail);
  }

  /** The created process sees the executable and the arguments it was meant to
      see exactly when the executable's name survives; the arguments alone it sees
      whenever the name has no quotes. */
  lemma CommandReadBack(executable: string, args: seq<string>, pairStays: bool)
    ensures ParseCommandLine(QuoteAll([executable] + args), pairStays) == [executable] + args <==>
      NameSurvives(executable)
    ensures '"' !in executable ==> ParseCommandLine(QuoteAll([executable] + args), pairStays)[1..] == args
  {
    var tail := QuoteMore(args);
    var line := QuoteAll([executable] + args);
    assert ([executable] + args)[1..] == args;
    assert line == QuoteOne(executable) + tail;
    MoreReadBack(args, pairStays);
    if '"' in executable {
      ProgramHasNoQuote(line, false);
      assert ([executable] + args)[0] == executable;
    } else if Plain(executable) {
      PlainProgram(executable, tail);
    } else {
      QuotedProgram(executable, tail);
      var parsed := ParseCommandLine(line, pairStays);
      assert parsed[0] == TakeProgram(line, false).argument && parsed[1..] == args;
      assert parsed == [executable] + args <==> parsed[0] == executable;
    }
  }
}
