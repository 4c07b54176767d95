/** A unit's command line: the installer's quoting against systemd's reading of
    it ("Quoting" in systemd.syntax(7), "COMMAND LINES" in systemd.service(5)). */
module SystemdQuoting {
  import opened Basics

  // ----- the installer ----------------------------------------------------

  /** `str::replace` of a character. */
  function Replace(s: string, c: char, with: string): string {
    if s == "" then "" else (if s[0] == c then with else [s[0]]) + Replace(s[1..], c, with)
  }

  function Escaped(arg: string): string {
    Replace(Replace(Replace(Replace(arg, '\\', "\\\\"), '"', "\\\""), '%', "%%"), '$', "$$")
  }

  predicate NeedsQuotes(arg: string) {
    arg == "" || exists i :: 0 <= i < |arg| && (IsWhitespace(arg[i]) || arg[i] == '"' || arg[i] == '\'')
  }

  function Quote(arg: string): string {
    if NeedsQuotes(arg) then "\"" + Escaped(arg) + "\"" else Escaped(arg)
  }

  function ExecStart(argv: seq<string>): string {
    if argv == [] then "" else if |argv| == 1 then Quote(argv[0]) else Quote(argv[0]) + " " + ExecStart(argv[1..])
  }

  // ----- the four replacements are one ------------------------------------

  function EscapeChar(c: char): string {
    if c == '\\' then "\\\\" else if c == '"' then "\\\"" else if c == '%' then "%%" else if c == '$' then "$$" else [c]
  }

  function EscapeEach(s: string): string {
    if s == "" then "" else EscapeChar(s[0]) + EscapeEach(s[1..])
  }

  lemma {:induction false} ReplaceJoined(a: string, b: string, c: char, with: string)
    ensures Replace(a + b, c, with) == Replace(a, c, with) + Replace(b, c, with)
  {
    if a == "" {
      assert a + b == b;
    } else {
      assert (a + b)[1..] == a[1..] + b;
      ReplaceJoined(a[1..], b, c, with);
    }
  }

  lemma EscapedJoined(a: string, b: string)
    ensures Escaped(a + b) == Escaped(a) + Escaped(b)
  {
    var a1, b1 := Replace(a, '\\', "\\\\"), Replace(b, '\\', "\\\\");
    ReplaceJoined(a, b, '\\', "\\\\");
    var a2, b2 := Replace(a1, '"', "\\\""), Replace(b1, '"', "\\\"");
    ReplaceJoined(a1, b1, '"', "\\\"");
    var a3, b3 := Replace(a2, '%', "%%"), Replace(b2, '%', "%%");
    ReplaceJoined(a2, b2, '%', "%%");
    ReplaceJoined(a3, b3, '$', "$$");
  }

  lemma ReplaceOne(d: char, c: char, with: string)
    ensures Replace([d], c, with) == if d == c then with else [d]
  {
    assert Replace([d][1..], c, with) == "";
  }

  lemma ReplaceTwo(d: char, e: char, c: char, with: string)
    ensures Replace([d, e], c, with) == (if d == c then with else [d]) + (if e == c then with else [e])
  {
    assert [d, e] == [d] + [e];
    ReplaceJoined([d], [e], c, with);
    ReplaceOne(d, c, with);
    ReplaceOne(e, c, with);
  }

  lemma EscapedOne(c: char)
    ensures Escaped([c]) == EscapeChar(c)
  {
    ReplaceOne(c, '\\', "\\\\");
    ReplaceOne(c, '"', "\\\"");
    ReplaceOne(c, '%', "%%");
    ReplaceOne(c, '$', "$$");
    if c == '\\' {
      ReplaceTwo('\\', '\\', '"', "\\\"");
      ReplaceTwo('\\', '\\', '%', "%%");
      ReplaceTwo('\\', '\\', '$', "$$");
    } else if c == '"' {
      ReplaceTwo('\\', '"', '%', "%%");
      ReplaceTwo('\\', '"', '$', "$$");
    } else if c == '%' {
      ReplaceTwo('%', '%', '$', "$$");
    }
  }

  /** The chained replacements escape each character once, by itself. */
  lemma {:induction false} ChainIsPerCharacter(arg: string)
    ensures Escaped(arg) == EscapeEach(arg)
  {
    if arg == "" {
    } else {
      ChainIsPerCharacter(arg[1..]);
      EscapedOne(arg[0]);
      assert arg == [arg[0]] + arg[1..];
      EscapedJoined([arg[0]], arg[1..]);
    }
  }

  /** Quotes are put around exactly the arguments that are empty or hold white space
      or a quote. */
  lemma QuotedExactlyWhen(arg: string)
    ensures Quote(arg) == EscapeEach(arg) || Quote(arg) == "\"" + EscapeEach(arg) + "\""
    ensures Quote(arg) == EscapeEach(arg) <==>
      arg != "" && forall c :: c in arg ==> !IsWhitespace(c) && c != '"' && c != '\''
  {
    ChainIsPerCharacter(arg);
    assert NeedsQuotes(arg) ==> |Quote(arg)| == |EscapeEach(arg)| + 2;
    assert forall i :: 0 <= i < |arg| ==> arg[i] in arg;
  }

  // ----- systemd ----------------------------------------------------------

  predicate Separates(c: char) { c == ' ' || c == '\t' || c == '\n' || c == '\r' }

  /** The C-style escapes of one letter; the numeric ones are not read here. */
  function Unescaped(c: char): Option<char> {
    if c == '\\' || c == '"' || c == '\'' then Some(c)
    else if c == 'n' then Some('\n')
    else if c == 't' then Some('\t')
    else if c == 'r' then Some('\r')
    else if c == 's' then Some(' ')
    else None
  }

  function Prepend(c: char, r: Option<(string, string)>): Option<(string, string)> {
    if r.None? then None else Some(([c] + r.value.0, r.value.1))
  }

  /** The rest of a word, outside quotes or inside `quote`: its text and what
      follows it. Nothing when a quote is not closed or an escape is not one. */
  function Extract(s: string, quote: Option<char>): (r: Option<(string, string)>)
    ensures r.Some? ==> |r.value.1| <= |s|
    ensures r.Some? && s != "" && (quote.Some? || !Separates(s[0])) ==> |r.value.1| < |s|
  {
    if s == "" then (if quote.None? then Some(("", "")) else None)
    else if s[0] == '\\' then
      if |s| == 1 || Unescaped(s[1]).None? then None
      else Prepend(Unescaped(s[1]).value, Extract(s[2..], quote))
    else if quote == Some(s[0]) then Extract(s[1..], None)
    else if quote.Some? then Prepend(s[0], Extract(s[1..], quote))
    else if s[0] == '"' || s[0] == '\'' then Extract(s[1..], Some(s[0]))
    else if Separates(s[0]) then Some(("", s))
    else Prepend(s[0], Extract(s[1..], None))
  }

  datatype Token = Word(text: string) | Semicolon

  predicate EndsWord(s: string) { s == "" || Separates(s[0]) }

  /** A line's words; a lone `;` ends a command, and a lone `\;` is the word `;`. */
  function Words(s: string): Option<seq<Token>>
    decreases |s|
  {
    if s == "" then Some([])
    else if Separates(s[0]) then Words(s[1..])
    else if s[0] == ';' && EndsWord(s[1..]) then Push(Semicolon, Words(s[1..]))
    else if |s| > 1 && s[0] == '\\' && s[1] == ';' && EndsWord(s[2..]) then Push(Word(";"), Words(s[2..]))
    else
      var w := Extract(s, None);
      if w.None? then None
      else Push(Word(w.value.0), Words(w.value.1))
  }

  function Push(t: Token, r: Option<seq<Token>>): Option<seq<Token>> {
    if r.None? then None else Some([t] + r.value)
  }

  /** A doubled `mark` is one; single, it would start a specifier or a variable. */
  function Halve(s: string, mark: char): Option<string> {
    if s == "" then Some("")
    else if s[0] == mark then
      if |s| > 1 && s[1] == mark then Cons(mark, Halve(s[2..], mark)) else None
    else Cons(s[0], Halve(s[1..], mark))
  }

  function Cons(c: char, r: Option<string>): Option<string> {
    if r.None? then None else Some([c] + r.value)
  }

  /** An argument from a word: specifiers first, then variables. */
  function Argument(word: string): Option<string> {
    var w := Halve(word, '%');
    if w.None? then None else Halve(w.value, '$')
  }

  /** The words of each command: the line's, divided at semicolons. */
  function Segments(ts: seq<Token>): (r: seq<seq<string>>)
    ensures r != []
  {
    if ts == [] then [[]] else
    var rest := Segments(ts[1..]);
    match ts[0]
    case Semicolon => [[]] + rest
    case Word(text) => [[text] + rest[0]] + rest[1..]
  }

  /** What a command runs: the program's path, and its arguments. */
  datatype Run = Run(program: string, argv: seq<string>)

  /** The special prefixes of a program. */
  predicate IsPrefix(c: char) { c == '-' || c == '@' || c == '+' || c == '!' || c == ':' }

  function PrefixLength(s: string): (n: nat)
    ensures n <= |s| && (n < |s| ==> !IsPrefix(s[n]))
    ensures n > 0 <==> s != "" && IsPrefix(s[0])
  {
    if s != "" && IsPrefix(s[0]) then 1 + PrefixLength(s[1..]) else 0
  }

  /** Arguments from words; after `:` variables are left alone. */
  function Arguments(words: seq<string>, variables: bool): (r: Option<seq<string>>)
    ensures r.Some? ==> |r.value| == |words|
  {
    if words == [] then Some([]) else
    var a := if variables then Argument(words[0]) else Halve(words[0], '%');
    var rest := Arguments(words[1..], variables);
    if a.None? || rest.None? then None else Some([a.value] + rest.value)
  }

  /** One command. Its first word is the program, with prefixes and specifiers
      but no variables, and is the first argument too, unless `@` has the next
      word be that. */
  function RunOf(words: seq<string>, refuses: string -> bool): (r: Option<Run>)
    requires words != []
    ensures r.Some? ==> |r.value.argv| <= |words|
  {
    var n := PrefixLength(words[0]);
    var prefix, path := words[0][..n], words[0][n..];
    var program := Halve(path, '%');
    var argv := Arguments((if '@' in prefix then [] else [path]) + words[1..], ':' !in prefix);
    if program.None? || program.value == "" || refuses(program.value) || argv.None? then None
    else Some(Run(program.value, argv.value))
  }

  /** The commands, empty ones skipped. */
  function RunsOf(segments: seq<seq<string>>, refuses: string -> bool): Option<seq<Run>> {
    if segments == [] then Some([]) else
    var rest := RunsOf(segments[1..], refuses);
    if segments[0] == [] then rest else
    var r := RunOf(segments[0], refuses);
    if r.None? || rest.None? then None else Some([r.value] + rest.value)
  }

  function FirstLine(s: string, breaks: char -> bool): string {
    if s == "" || breaks(s[0]) then "" else [s[0]] + FirstLine(s[1..], breaks)
  }

  /** A line ends in a backslash that is not itself escaped, so the next one
      belongs to it. */
  predicate Continues(line: string) {
    if line == "" then false
    else if line[0] == '\\' then |line| == 1 || Continues(line[2..])
    else Continues(line[1..])
  }

  /** What systemd runs for `ExecStart=` followed by `text`. Lines end at a
      newline, and whatever else of white space `breaks` says; `refuses` says which
      programs are no paths it accepts. A line that continues is not read here. */
  function Reads(text: string, breaks: char -> bool, refuses: string -> bool): Option<seq<Run>> {
    var line := FirstLine(text, breaks);
    var ts := Words(line);
    if Continues(line) || ts.None? then None else RunsOf(Segments(ts.value), refuses)
  }

  ghost predicate BreaksLines(breaks: char -> bool) {
    breaks('\n') && !breaks(' ') && forall c :: breaks(c) ==> IsWhitespace(c)
  }

  // ----- one argument -----------------------------------------------------

  /** An argument with `%` and `$` doubled: the text of its word. */
  function Doubled(s: string, mark: char): string {
    if s == "" then "" else (if s[0] == mark then [mark, mark] else [s[0]]) + Doubled(s[1..], mark)
  }

  function WordText(arg: string): string { Doubled(Doubled(arg, '$'), '%') }

  lemma {:induction false} HalveUndoesDouble(s: string, mark: char)
    ensures Halve(Doubled(s, mark), mark) == Some(s)
  {
    if s != "" {
      HalveUndoesDouble(s[1..], mark);
      var d := Doubled(s, mark);
      assert [s[0]] + s[1..] == s;
      assert s[0] == mark ==> d[2..] == Doubled(s[1..], mark);
      assert s[0] != mark ==> d[1..] == Doubled(s[1..], mark);
    }
  }

  lemma ArgumentIsReadBack(arg: string)
    ensures Argument(WordText(arg)) == Some(arg)
  {
    HalveUndoesDouble(Doubled(arg, '$'), '%');
    HalveUndoesDouble(arg, '$');
  }

  lemma WordTextOn(arg: string)
    requires arg != ""
    ensures WordText(arg) == CharText(arg[0]) + WordText(arg[1..])
  {
    var d, t := Doubled(arg, '$'), Doubled(arg[1..], '$');
    if arg[0] == '$' {
      assert d == ['$'] + (['$'] + t);
      assert d[1..] == ['$'] + t && (['$'] + t)[1..] == t;
      assert Doubled(d[1..], '%') == ['$'] + Doubled(t, '%');
      assert Doubled(d, '%') == ['$'] + (['$'] + Doubled(t, '%'));
      assert ['$'] + (['$'] + Doubled(t, '%')) == "$$" + Doubled(t, '%');
    } else {
      assert d[1..] == t;
    }
  }

  function CharText(c: char): string { if c == '%' then "%%" else if c == '$' then "$$" else [c] }

  function PrependAll(w: string, r: Option<(string, string)>): Option<(string, string)> {
    if r.None? then None else Some((w + r.value.0, r.value.1))
  }

  /** One escaped character is read as its text, in double quotes or outside. */
  lemma ExtractChar(c: char, t: string, quote: Option<char>)
    requires quote == Some('"') || (quote.None? && !Separates(c) && c != '"' && c != '\'')
    ensures Extract(EscapeChar(c) + t, quote) == PrependAll(CharText(c), Extract(t, quote))
  {
    var s := EscapeChar(c) + t;
    if c == '\\' || c == '"' {
      assert s[2..] == t;
    } else if c == '%' || c == '$' {
      assert s[1..] == [c] + t && ([c] + t)[1..] == t;
      assert Extract(s, quote) == Prepend(c, Extract([c] + t, quote));
      assert Extract([c] + t, quote) == Prepend(c, Extract(t, quote));
      var r := Extract(t, quote);
      if r.Some? { assert [c] + ([c] + r.value.0) == [c, c] + r.value.0; }
    } else {
      assert s[1..] == t;
    }
  }

  lemma PrependTwice(a: string, b: string, r: Option<(string, string)>)
    ensures PrependAll(a, PrependAll(b, r)) == PrependAll(a + b, r)
    ensures PrependAll("", r) == r
  {
    if r.Some? {
      assert a + (b + r.value.0) == a + b + r.value.0;
      assert "" + r.value.0 == r.value.0;
    }
  }

  lemma EscapeOn(arg: string, t: string)
    requires arg != ""
    ensures EscapeEach(arg) + t == EscapeChar(arg[0]) + (EscapeEach(arg[1..]) + t)
  {
  }

  lemma {:induction false} ExtractText(arg: string, t: string, quote: Option<char>)
    requires quote == Some('"') ||
      (quote.None? && forall i :: 0 <= i < |arg| ==> !Separates(arg[i]) && arg[i] != '"' && arg[i] != '\'')
    ensures Extract(EscapeEach(arg) + t, quote) == PrependAll(WordText(arg), Extract(t, quote))
  {
    var r := Extract(t, quote);
    if arg == "" {
      assert EscapeEach(arg) + t == t;
      PrependTwice("", "", r);
    } else {
      EscapeOn(arg, t);
      ExtractChar(arg[0], EscapeEach(arg[1..]) + t, quote);
      ExtractText(arg[1..], t, quote);
      WordTextOn(arg);
      PrependTwice(CharText(arg[0]), WordText(arg[1..]), r);
    }
  }

  lemma WordEnds(w: string, rest: string)
    requires EndsWord(rest)
    ensures PrependAll(w, Extract(rest, None)) == Some((w, rest))
    ensures PrependAll(w, Extract("\"" + rest, Some('"'))) == Some((w, rest))
  {
    assert ("\"" + rest)[1..] == rest;
    assert w + "" == w;
  }

  function QuoteEach(arg: string): string {
    if NeedsQuotes(arg) then "\"" + EscapeEach(arg) + "\"" else EscapeEach(arg)
  }

  lemma QuoteIsPerCharacter(arg: string)
    ensures Quote(arg) == QuoteEach(arg)
  {
    ChainIsPerCharacter(arg);
  }

  lemma ExtractInQuotes(arg: string, rest: string)
    requires EndsWord(rest)
    ensures Extract(EscapeEach(arg) + ("\"" + rest), Some('"')) == Some((WordText(arg), rest))
  {
    WordEnds(WordText(arg), rest);
    ExtractText(arg, "\"" + rest, Some('"'));
  }

  lemma ExtractBare(arg: string, rest: string)
    requires EndsWord(rest) && !NeedsQuotes(arg)
    ensures Extract(EscapeEach(arg) + rest, None) == Some((WordText(arg), rest))
  {
    WordEnds(WordText(arg), rest);
    ExtractText(arg, rest, None);
  }

  lemma QuotedText(arg: string, rest: string)
    requires NeedsQuotes(arg)
    ensures QuoteEach(arg) + rest == "\"" + (EscapeEach(arg) + ("\"" + rest))
  {
  }

  /** A quoted argument is one word, up to where it ends. */
  lemma ExtractQuoted(arg: string, rest: string)
    requires EndsWord(rest)
    ensures Extract(QuoteEach(arg) + rest, None) == Some((WordText(arg), rest))
  {
    if NeedsQuotes(arg) {
      ExtractInQuotes(arg, rest);
      QuotedText(arg, rest);
      OpenQuote(QuoteEach(arg) + rest, EscapeEach(arg) + ("\"" + rest));
    } else {
      ExtractBare(arg, rest);
    }
  }

  lemma OpenQuote(s: string, t: string)
    requires s == "\"" + t
    ensures Extract(s, None) == Extract(t, Some('"'))
  {
    assert s[1..] == t;
  }

  /** A quoted argument cut off inside is not read at all. */
  lemma ExtractCutOff(arg: string)
    ensures Extract("\"" + EscapeEach(arg), None) == None
  {
    ExtractText(arg, "", Some('"'));
    assert EscapeEach(arg) + "" == EscapeEach(arg);
    OpenQuote("\"" + EscapeEach(arg), EscapeEach(arg));
  }

  /** How a quoted argument starts: with a quote, or with what is no separator,
      and with `;` only when the argument does. */
  lemma QuoteStarts(arg: string)
    ensures QuoteEach(arg) != "" && !Separates(QuoteEach(arg)[0])
    ensures QuoteEach(arg)[0] == ';' ==> !NeedsQuotes(arg) && arg[0] == ';'
    ensures QuoteEach(arg)[0] == '\\' ==> |QuoteEach(arg)| > 1 && QuoteEach(arg)[1] == '\\'
  {
    if !NeedsQuotes(arg) {
      assert EscapeEach(arg) == EscapeChar(arg[0]) + EscapeEach(arg[1..]);
      assert !IsWhitespace(arg[0]);
    }
  }

  function TokenOf(arg: string): Token { if arg == ";" then Semicolon else Word(WordText(arg)) }

  lemma WordIsRead(arg: string, rest: string)
    requires EndsWord(rest)
    ensures Words(QuoteEach(arg) + rest) == Push(TokenOf(arg), Words(rest))
  {
    var q := QuoteEach(arg);
    QuoteStarts(arg);
    ExtractQuoted(arg, rest);
    if arg == ";" {
      assert EscapeEach(";") == EscapeChar(';') + EscapeEach(";"[1..]) == ";";
      SemicolonRead(rest);
    } else {
      if q[0] == ';' { SecondIsNoSeparator(arg); }
      PlainWordRead(q, rest, WordText(arg));
    }
  }

  lemma SemicolonRead(rest: string)
    requires EndsWord(rest)
    ensures Words(";" + rest) == Push(Semicolon, Words(rest))
  {
    assert (";" + rest)[1..] == rest;
  }

  lemma PlainWordRead(q: string, rest: string, text: string)
    requires q != "" && !Separates(q[0]) && EndsWord(rest)
    requires q[0] == ';' ==> |q| > 1 && !Separates(q[1])
    requires q[0] == '\\' ==> |q| > 1 && q[1] != ';'
    requires Extract(q + rest, None) == Some((text, rest))
    ensures Words(q + rest) == Push(Word(text), Words(rest))
  {
    var s := q + rest;
    assert s[0] == q[0] && (|q| > 1 ==> s[1] == q[1] && s[1..][0] == q[1]);
  }

  lemma SecondIsNoSeparator(arg: string)
    requires arg != ";" && QuoteEach(arg) != "" && QuoteEach(arg)[0] == ';'
    ensures |QuoteEach(arg)| > 1 && !Separates(QuoteEach(arg)[1])
  {
    QuoteStarts(arg);
    assert |arg| == 1 ==> arg == ";";
    var t := arg[1..];
    assert EscapeEach(arg) == ";" + EscapeEach(t);
    assert EscapeEach(t) == EscapeChar(t[0]) + EscapeEach(t[1..]);
    assert t[0] == arg[1] && !IsWhitespace(arg[1]);
  }

  // ----- the whole line ---------------------------------------------------

  function TokensOf(argv: seq<string>): seq<Token> {
    if argv == [] then [] else [TokenOf(argv[0])] + TokensOf(argv[1..])
  }

  /** What follows the first argument. */
  function Rest(argv: seq<string>): string
    requires argv != []
  {
    if |argv| == 1 then "" else " " + ExecStart(argv[1..])
  }

  lemma ExecStartOn(argv: seq<string>)
    requires argv != []
    ensures ExecStart(argv) == QuoteEach(argv[0]) + Rest(argv)
  {
    QuoteIsPerCharacter(argv[0]);
    if |argv| == 1 {
      assert Quote(argv[0]) + "" == Quote(argv[0]);
    } else {
      Regroup(Quote(argv[0]), " ", ExecStart(argv[1..]));
    }
  }

  lemma SpaceIsSkipped(s: string)
    ensures Words(" " + s) == Words(s)
  {
    assert (" " + s)[1..] == s;
  }

  lemma {:induction false} LineIsRead(argv: seq<string>)
    ensures Words(ExecStart(argv)) == Some(TokensOf(argv))
  {
    if argv != [] {
      LineIsRead(argv[1..]);
      ExecStartOn(argv);
      SpaceIsSkipped(ExecStart(argv[1..]));
      WordIsRead(argv[0], Rest(argv));
    }
  }

  // ----- the commands -----------------------------------------------------

  function WordTexts(argv: seq<string>): (r: seq<string>)
    ensures |r| == |argv|
  {
    if argv == [] then [] else [WordText(argv[0])] + WordTexts(argv[1..])
  }

  lemma {:induction false} OneSegment(argv: seq<string>)
    requires ";" !in argv
    ensures Segments(TokensOf(argv)) == [WordTexts(argv)]
  {
    if argv != [] {
      OneSegment(argv[1..]);
      assert TokensOf(argv)[1..] == TokensOf(argv[1..]);
    }
  }

  function Total(segments: seq<seq<string>>): nat {
    if segments == [] then 0 else |segments[0]| + Total(segments[1..])
  }

  lemma TotalOn(first: seq<string>, rest: seq<seq<string>>)
    ensures Total([first] + rest) == |first| + Total(rest)
  {
    assert ([first] + rest)[1..] == rest;
  }

  /** A lone semicolon is no word of any command. */
  lemma {:induction false} SemicolonsAreLost(argv: seq<string>)
    ensures Total(Segments(TokensOf(argv))) <= |argv|
    ensures ";" in argv ==> Total(Segments(TokensOf(argv))) < |argv|
  {
    if argv == [] {
      TotalOn([], []);
    } else {
      var rest := Segments(TokensOf(argv[1..]));
      SemicolonsAreLost(argv[1..]);
      assert TokensOf(argv)[1..] == TokensOf(argv[1..]);
      assert rest == [rest[0]] + rest[1..];
      TotalOn(rest[0], rest[1..]);
      if argv[0] == ";" {
        TotalOn([], rest);
      } else {
        TotalOn([WordText(argv[0])] + rest[0], rest[1..]);
      }
    }
  }

  lemma {:induction false} RunsAreNoLonger(
    segments: seq<seq<string>>, refuses: string -> bool, program: string, argv: seq<string>)
    requires RunsOf(segments, refuses) == Some([Run(program, argv)])
    ensures |argv| <= Total(segments)
  {
    if segments[0] == [] {
      RunsAreNoLonger(segments[1..], refuses, program, argv);
    } else {
      assert RunsOf(segments, refuses).value[0] == RunOf(segments[0], refuses).value;
    }
  }

  lemma OneCommand(words: seq<string>, refuses: string -> bool)
    requires words != []
    ensures var r := RunOf(words, refuses);
      RunsOf([words], refuses) == if r.None? then None else Some([r.value])
  {
    var r := RunOf(words, refuses);
    assert [words][1..] == [] && RunsOf([words][1..], refuses) == Some([]);
    assert r.Some? ==> [r.value] + [] == [r.value];
  }

  lemma {:induction false} ArgumentsAreReadBack(argv: seq<string>)
    ensures Arguments(WordTexts(argv), true) == Some(argv)
  {
    if argv != [] {
      ArgumentIsReadBack(argv[0]);
      ArgumentsAreReadBack(argv[1..]);
      assert WordTexts(argv)[1..] == WordTexts(argv[1..]);
      ArgumentsOn(WordTexts(argv), argv);
    }
  }

  lemma ArgumentsOn(words: seq<string>, argv: seq<string>)
    requires words != [] && argv != []
    requires Argument(words[0]) == Some(argv[0]) && Arguments(words[1..], true) == Some(argv[1..])
    ensures Arguments(words, true) == Some(argv)
  {
    assert argv == [argv[0]] + argv[1..];
  }

  lemma {:induction false} DoubledIsSame(s: string, mark: char)
    ensures |Doubled(s, mark)| >= |s|
    ensures mark in s ==> |Doubled(s, mark)| > |s|
    ensures mark !in s ==> Doubled(s, mark) == s
    ensures s != "" ==> Doubled(s, mark)[0] == s[0]
  {
    if s != "" {
      DoubledIsSame(s[1..], mark);
      assert s == [s[0]] + s[1..];
    }
  }

  lemma HalveKeepsFirst(s: string, mark: char)
    requires s != "" && Halve(s, mark).Some?
    ensures Halve(s, mark).value != "" && Halve(s, mark).value[0] == s[0]
  {
  }

  /** A program systemd takes as it is given: no special prefix, and no `$`,
      which stays doubled in it. */
  predicate PlainProgram(p: string) { p != "" && !IsPrefix(p[0]) && '$' !in p }

  lemma ProgramIsRead(argv: seq<string>, refuses: string -> bool)
    requires argv != []
    ensures RunOf(WordTexts(argv), refuses) == Some(Run(argv[0], argv)) <==>
      PlainProgram(argv[0]) && !refuses(argv[0])
  {
    var a, w := argv[0], WordText(argv[0]);
    assert WordTexts(argv)[0] == w && WordTexts(argv)[1..] == WordTexts(argv[1..]);
    DoubledIsSame(a, '$');
    DoubledIsSame(Doubled(a, '$'), '%');
    HalveUndoesDouble(Doubled(a, '$'), '%');
    if a == "" {
    } else if IsPrefix(a[0]) {
      PrefixIsTaken(WordTexts(argv), refuses, a);
    } else {
      assert PrefixLength(w) == 0 && w[..0] == "" && w[0..] == w;
      assert [w] + WordTexts(argv[1..]) == WordTexts(argv);
      ArgumentsAreReadBack(argv);
    }
  }

  /** With a prefix, another program is run. */
  lemma PrefixIsTaken(words: seq<string>, refuses: string -> bool, a: string)
    requires words != [] && words[0] != "" && a != "" && words[0][0] == a[0] && IsPrefix(a[0])
    ensures RunOf(words, refuses).Some? ==> RunOf(words, refuses).value.program != a
  {
    var n := PrefixLength(words[0]);
    var path := words[0][n..];
    if path != "" && Halve(path, '%').Some? { HalveKeepsFirst(path, '%'); }
  }

  // ----- one line ---------------------------------------------------------

  ghost predicate NoBreak(s: string, breaks: char -> bool) {
    forall i :: 0 <= i < |s| ==> !breaks(s[i])
  }

  ghost predicate OneLine(argv: seq<string>, breaks: char -> bool) {
    forall i :: 0 <= i < |argv| ==> NoBreak(argv[i], breaks)
  }

  lemma {:induction false} FirstLineOf(a: string, b: string, breaks: char -> bool)
    requires NoBreak(a, breaks)
    ensures FirstLine(a + b, breaks) == a + FirstLine(b, breaks)
  {
    if a == "" {
      assert a + b == b;
    } else {
      assert (a + b)[1..] == a[1..] + b;
      FirstLineOf(a[1..], b, breaks);
    }
  }

  lemma NoBreakJoined(a: string, b: string, breaks: char -> bool)
    ensures NoBreak(a + b, breaks) <==> NoBreak(a, breaks) && NoBreak(b, breaks)
  {
    assert forall i :: 0 <= i < |a| ==> (a + b)[i] == a[i];
    assert forall i :: 0 <= i < |b| ==> (a + b)[|a| + i] == b[i];
  }

  lemma EscapeCharKeepsLines(c: char, breaks: char -> bool)
    requires BreaksLines(breaks)
    ensures NoBreak(EscapeChar(c), breaks) <==> !breaks(c)
  {
    assert !breaks('\\') && !breaks('"') && !breaks('%') && !breaks('$');
    assert breaks(c) ==> EscapeChar(c)[0] == c;
  }

  lemma {:induction false} EscapeKeepsLines(s: string, breaks: char -> bool)
    requires BreaksLines(breaks)
    ensures NoBreak(EscapeEach(s), breaks) <==> NoBreak(s, breaks)
  {
    if s != "" {
      EscapeKeepsLines(s[1..], breaks);
      EscapeCharKeepsLines(s[0], breaks);
      NoBreakJoined(EscapeChar(s[0]), EscapeEach(s[1..]), breaks);
      NoBreakJoined([s[0]], s[1..], breaks);
      assert s == [s[0]] + s[1..];
    }
  }

  lemma QuoteKeepsLines(s: string, breaks: char -> bool)
    requires BreaksLines(breaks)
    ensures NoBreak(QuoteEach(s), breaks) <==> NoBreak(s, breaks)
  {
    EscapeKeepsLines(s, breaks);
    assert NoBreak("\"", breaks);
    NoBreakJoined("\"", EscapeEach(s), breaks);
    NoBreakJoined("\"" + EscapeEach(s), "\"", breaks);
  }

  lemma {:induction false} StaysOnOneLine(argv: seq<string>, breaks: char -> bool)
    requires BreaksLines(breaks) && OneLine(argv, breaks)
    ensures NoBreak(ExecStart(argv), breaks)
  {
    if argv != [] {
      StaysOnOneLine(argv[1..], breaks);
      ExecStartOn(argv);
      QuoteKeepsLines(argv[0], breaks);
      NoBreakJoined(" ", ExecStart(argv[1..]), breaks);
      NoBreakJoined(QuoteEach(argv[0]), Rest(argv), breaks);
    }
  }

  lemma {:induction false} EscapeJoined(a: string, b: string)
    ensures EscapeEach(a + b) == EscapeEach(a) + EscapeEach(b)
  {
    if a == "" {
      assert a + b == b;
    } else {
      assert (a + b)[1..] == a[1..] + b;
      EscapeJoined(a[1..], b);
    }
  }

  lemma {:induction false} FirstBreak(s: string, breaks: char -> bool) returns (i: nat)
    requires !NoBreak(s, breaks)
    ensures i < |s| && breaks(s[i]) && NoBreak(s[..i], breaks)
  {
    if breaks(s[0]) {
      i := 0;
    } else {
      NoBreakJoined([s[0]], s[1..], breaks);
      assert s == [s[0]] + s[1..];
      var k := FirstBreak(s[1..], breaks);
      i := k + 1;
      assert s[..i] == [s[0]] + s[1..][..k];
      NoBreakJoined([s[0]], s[1..][..k], breaks);
    }
  }

  lemma BreakCuts(line: string, tail: string, breaks: char -> bool)
    requires NoBreak(line, breaks) && tail != "" && breaks(tail[0])
    ensures FirstLine(line + tail, breaks) == line
  {
    FirstLineOf(line, tail, breaks);
    assert line + "" == line;
  }

  lemma CutText(p: string, q: string, rest: string)
    requires q != "" && IsWhitespace(q[0])
    ensures QuoteEach(p + q) + rest == ("\"" + EscapeEach(p)) + (EscapeEach(q) + "\"" + rest)
    ensures EscapeEach(q) != "" && EscapeEach(q)[0] == q[0]
  {
    assert (p + q)[|p|] == q[0];
    assert QuoteEach(p + q) == "\"" + EscapeEach(p + q) + "\"";
    EscapeJoined(p, q);
    var e, f := EscapeEach(p), EscapeEach(q);
    Regroup("\"", e, f);
    Regroup("\"" + e, f, "\"");
    Regroup("\"" + e, f + "\"", rest);
    assert f == EscapeChar(q[0]) + EscapeEach(q[1..]);
  }

  /** An argument with a line break leaves an open quote at the end of its line. */
  lemma BrokenArgument(arg: string, rest: string, breaks: char -> bool)
    requires BreaksLines(breaks) && !NoBreak(arg, breaks)
    ensures Words(FirstLine(QuoteEach(arg) + rest, breaks)) == None
  {
    var i := FirstBreak(arg, breaks);
    var p, q := arg[..i], arg[i..];
    assert arg == p + q;
    CutText(p, q, rest);
    EscapeKeepsLines(p, breaks);
    assert NoBreak("\"", breaks);
    NoBreakJoined("\"", EscapeEach(p), breaks);
    BreakCuts("\"" + EscapeEach(p), EscapeEach(q) + "\"" + rest, breaks);
    ExtractCutOff(p);
    NoFirstWord("\"" + EscapeEach(p));
  }

  lemma NoFirstWord(line: string)
    requires line != "" && line[0] == '"' && Extract(line, None) == None
    ensures Words(line) == None
  {
  }

  lemma {:induction false} BrokenLine(argv: seq<string>, breaks: char -> bool)
    requires BreaksLines(breaks) && !OneLine(argv, breaks)
    ensures Words(FirstLine(ExecStart(argv), breaks)) == None
  {
    var a, more := argv[0], argv[1..];
    ExecStartOn(argv);
    if !NoBreak(a, breaks) {
      BrokenArgument(a, Rest(argv), breaks);
    } else {
      var i :| 0 <= i < |argv| && !NoBreak(argv[i], breaks);
      assert more[i - 1] == argv[i];
      BrokenLine(more, breaks);
      QuoteKeepsLines(a, breaks);
      FirstLineOf(QuoteEach(a), Rest(argv), breaks);
      FirstLineOf(" ", ExecStart(more), breaks);
      SpaceIsSkipped(FirstLine(ExecStart(more), breaks));
      WordIsRead(a, FirstLine(Rest(argv), breaks));
    }
  }

  // ----- no line continues ------------------------------------------------

  lemma EscapeCharEnds(c: char, t: string)
    ensures Continues(EscapeChar(c) + t) == Continues(t)
  {
    var s := EscapeChar(c) + t;
    if c == '\\' || c == '"' {
      assert s[2..] == t;
    } else if c == '%' || c == '$' {
      assert s[1..] == [c] + t && ([c] + t)[1..] == t;
    } else {
      assert s[1..] == t;
    }
  }

  lemma {:induction false} EscapeEnds(s: string, t: string)
    ensures Continues(EscapeEach(s) + t) == Continues(t)
  {
    if s == "" {
      assert EscapeEach(s) + t == t;
    } else {
      EscapeEnds(s[1..], t);
      EscapeOn(s, t);
      EscapeCharEnds(s[0], EscapeEach(s[1..]) + t);
    }
  }

  lemma QuoteEnds(arg: string, rest: string)
    ensures Continues(QuoteEach(arg) + rest) == Continues(rest)
  {
    EscapeEnds(arg, rest);
    if NeedsQuotes(arg) {
      QuotedText(arg, rest);
      var t := EscapeEach(arg) + ("\"" + rest);
      assert ("\"" + t)[1..] == t && ("\"" + rest)[1..] == rest;
      EscapeEnds(arg, "\"" + rest);
    }
  }

  lemma {:induction false} LineEnds(argv: seq<string>)
    ensures !Continues(ExecStart(argv))
  {
    if argv != [] {
      LineEnds(argv[1..]);
      ExecStartOn(argv);
      QuoteEnds(argv[0], Rest(argv));
      assert (" " + ExecStart(argv[1..]))[1..] == ExecStart(argv[1..]);
    }
  }

  // ----- the round trip ---------------------------------------------------

  /** What the installer means to have run. */
  function Meant(argv: seq<string>): seq<Run> { if argv == [] then [] else [Run(argv[0], argv)] }

  lemma SplitIsNotMeant(argv: seq<string>, refuses: string -> bool)
    requires ";" in argv
    ensures RunsOf(Segments(TokensOf(argv)), refuses) != Some(Meant(argv))
  {
    SemicolonsAreLost(argv);
    if RunsOf(Segments(TokensOf(argv)), refuses) == Some(Meant(argv)) {
      RunsAreNoLonger(Segments(TokensOf(argv)), refuses, argv[0], argv);
    }
  }

  lemma OneIsMeant(argv: seq<string>, refuses: string -> bool)
    requires argv != []
    ensures RunsOf([WordTexts(argv)], refuses) == Some(Meant(argv)) <==> PlainProgram(argv[0]) && !refuses(argv[0])
  {
    ProgramIsRead(argv, refuses);
    var r := RunOf(WordTexts(argv), refuses);
    OneCommand(WordTexts(argv), refuses);
    assert r.Some? ==> ([r.value] == [Run(argv[0], argv)] <==> r.value == Run(argv[0], argv));
  }

  /** The program is one systemd runs as it is given. */
  predicate ProgramStands(argv: seq<string>, refuses: string -> bool) {
    argv != [] ==> PlainProgram(argv[0]) && !refuses(argv[0])
  }

  lemma RunsAreMeant(argv: seq<string>, refuses: string -> bool)
    ensures RunsOf(Segments(TokensOf(argv)), refuses) == Some(Meant(argv)) <==>
      ";" !in argv && ProgramStands(argv, refuses)
  {
    if ";" in argv {
      SplitIsNotMeant(argv, refuses);
    } else {
      OneSegment(argv);
      if argv != [] { OneIsMeant(argv, refuses); }
    }
  }

  /** The round trip: systemd runs exactly the program and arguments given, as
      one command, if and only if no argument holds a line break or is a lone
      semicolon and the program has no prefix systemd would take for its own, no
      `$`, and is no path it refuses. */
  lemma CommandLineRoundTrip(argv: seq<string>, breaks: char -> bool, refuses: string -> bool)
    requires BreaksLines(breaks)
    ensures Reads(ExecStart(argv), breaks, refuses) == Some(Meant(argv)) <==>
      OneLine(argv, breaks) && ";" !in argv && ProgramStands(argv, refuses)
  {
    if OneLine(argv, breaks) {
      StaysOnOneLine(argv, breaks);
      FirstLineOf(ExecStart(argv), "", breaks);
      assert ExecStart(argv) + "" == ExecStart(argv);
      LineIsRead(argv);
      LineEnds(argv);
      RunsAreMeant(argv, refuses);
    } else {
      BrokenLine(argv, breaks);
    }
  }
}
