/** The upgrade's additions to an environment file: an `IOLAKE_` line for each
    `OBJECTIO_` one that has none. The file is its text; appending to it makes a
    longer text. */
module EnvFile {
  import opened Basics
  import opened RenameVars

  datatype Def = Def(name: string, value: string)

  // ----- reading ----------------------------------------------------------

  /** The first newline, or -1. */
  function Newline(s: string): (n: int)
    ensures -1 <= n < |s|
    ensures n >= 0 ==> s[n] == '\n' && '\n' !in s[..n]
    ensures n < 0 ==> '\n' !in s
  {
    if s == "" then -1
    else if s[0] == '\n' then 0
    else
      var n := Newline(s[1..]);
      assert n >= 0 ==> s[..n + 1] == [s[0]] + s[1..][..n];
      assert s == [s[0]] + s[1..];
      if n < 0 then -1 else n + 1
  }

  function CutReturn(s: string): string {
    if s != "" && s[|s| - 1] == '\r' then s[..|s| - 1] else s
  }

  /** Rust's `str::lines`: a final newline is optional, and a carriage return
      goes with the newline after it. */
  function Lines(text: string): seq<string> {
    if text == "" then [] else
    var n := Newline(text);
    if n < 0 then [text] else [CutReturn(text[..n])] + Lines(text[n + 1..])
  }

  function TrimStart(s: string): string {
    if s != "" && IsWhitespace(s[0]) then TrimStart(s[1..]) else s
  }

  function TrimEnd(s: string): string {
    if s != "" && IsWhitespace(s[|s| - 1]) then TrimEnd(s[..|s| - 1]) else s
  }

  function StripExport(s: string): string { if "export " <= s then s[7..] else s }

  function SplitOnce(s: string): Option<(string, string)> {
    if s == "" then None
    else if s[0] == '=' then Some(("", s[1..]))
    else
      var r := SplitOnce(s[1..]);
      if r.None? then None else Some(([s[0]] + r.value.0, r.value.1))
  }

  /** The variable a line sets. */
  function SetBy(line: string): Option<Def> {
    var r := SplitOnce(StripExport(TrimStart(line)));
    if r.None? then None else Some(Def(TrimEnd(TrimStart(r.value.0)), r.value.1))
  }

  function DefsIn(lines: seq<string>): seq<Def> {
    if lines == [] then [] else
    match SetBy(lines[0])
    case Some(d) => [d] + DefsIn(lines[1..])
    case None => DefsIn(lines[1..])
  }

  function Defs(text: string): seq<Def> { DefsIn(Lines(text)) }

  function Names(ds: seq<Def>): (ns: seq<string>)
    ensures |ns| == |ds| && forall i :: 0 <= i < |ds| ==> ns[i] == ds[i].name
  {
    if ds == [] then [] else [ds[0].name] + Names(ds[1..])
  }

  // ----- what a line sets -------------------------------------------------

  ghost predicate Blank(s: string) { forall i :: 0 <= i < |s| ==> IsWhitespace(s[i]) }

  /** A name without `=` or white space around it. */
  ghost predicate IsName(s: string) {
    s != "" && '=' !in s && !IsWhitespace(s[0]) && !IsWhitespace(s[|s| - 1])
  }

  lemma {:induction false} TrimStartBlank(blank: string, s: string)
    requires Blank(blank) && s != "" && !IsWhitespace(s[0])
    ensures TrimStart(blank + s) == s
  {
    if blank == "" {
      assert blank + s == s;
    } else {
      assert (blank + s)[1..] == blank[1..] + s;
      TrimStartBlank(blank[1..], s);
    }
  }

  lemma {:induction false} TrimEndBlank(s: string, blank: string)
    requires Blank(blank) && s != "" && !IsWhitespace(s[|s| - 1])
    ensures TrimEnd(s + blank) == s
  {
    if blank == "" {
      assert s + blank == s;
    } else {
      assert (s + blank)[..|s + blank| - 1] == s + blank[..|blank| - 1];
      TrimEndBlank(s, blank[..|blank| - 1]);
    }
  }

  lemma SplitAndTrimmed(blank: string, name: string, blank': string, value: string)
    requires Blank(blank) && IsName(name) && Blank(blank')
    ensures SplitOnce(blank + (name + blank') + "=" + value) == Some((blank + (name + blank'), value))
    ensures TrimEnd(TrimStart(blank + (name + blank'))) == name
  {
    assert forall i :: 0 <= i < |blank| ==> blank[i] != '=';
    assert forall i :: 0 <= i < |blank'| ==> blank'[i] != '=';
    SplitOnceAt(blank + (name + blank'), value);
    TrimStartBlank(blank, name + blank');
    TrimEndBlank(name, blank');
  }

  /** A line sets the name before its first `=`, after an `export ` or without, to all
      that is after it; white space before it and around the name does not count. */
  lemma LineSets(indent: string, blank: string, name: string, blank': string, value: string)
    requires Blank(indent) && Blank(blank) && IsName(name) && Blank(blank')
    ensures SetBy(indent + ("export " + (blank + (name + blank') + "=" + value))) == Some(Def(name, value))
    ensures !("export " <= name + blank' + "=" + value) ==>
      SetBy(indent + (name + blank' + "=" + value)) == Some(Def(name, value))
  {
    var rest := blank + (name + blank') + "=" + value;
    TrimStartBlank(indent, "export " + rest);
    assert ("export " + rest)[7..] == rest;
    SplitAndTrimmed(blank, name, blank', value);
    var bare := name + blank' + "=" + value;
    TrimStartBlank(indent, bare);
    assert "" + (name + blank') == name + blank';
    SplitAndTrimmed("", name, blank', value);
  }

  /** And only a line without an `=` sets nothing. */
  lemma SetsNothing(line: string)
    ensures SetBy(line).None? <==> '=' !in line
  {
    TrimStartKeeps(line, '=');
    var t := TrimStart(line);
    if "export " <= t {
      assert t == "export " + t[7..] && '=' !in "export ";
    }
    SplitOnceParts(StripExport(t), '=');
  }

  lemma {:induction false} TrimStartKeeps(s: string, c: char)
    requires !IsWhitespace(c)
    ensures c in TrimStart(s) <==> c in s
  {
    if s != "" && IsWhitespace(s[0]) {
      TrimStartKeeps(s[1..], c);
      assert s == [s[0]] + s[1..];
    }
  }

  // ----- adding -----------------------------------------------------------

  function NewName(name: string): string
    requires Starts(name)
  {
    NEW_VAR + name[9..]
  }

  /** Not an old name, or one whose new name is among `have`. */
  predicate Done(d: Def, have: seq<string>) { Starts(d.name) ==> NewName(d.name) in have }

  /** The new definitions for `todo`, of names not in `have` nor added before. */
  function Missing(todo: seq<Def>, have: seq<string>): seq<Def> {
    if todo == [] then []
    else if Done(todo[0], have) then Missing(todo[1..], have)
    else
      var newName := NewName(todo[0].name);
      [Def(newName, todo[0].value)] + Missing(todo[1..], have + [newName])
  }

  function Additions(text: string): seq<Def> { Missing(Defs(text), Names(Defs(text))) }

  function Print(ds: seq<Def>): string {
    if ds == [] then "" else ds[0].name + "=" + ds[0].value + "\n" + Print(ds[1..])
  }

  predicate Plain(s: string) { '\n' !in s && '=' !in s && '\r' !in s }

  /** Text on one line that sets nothing. */
  type Comment = s: string | Plain(s)

  const NOTE_1A: Comment := "# Added by iolake-install "
  const NOTE_1B: Comment := "upgrade: the same settings "
  const NOTE_1C: Comment := "under the names the"
  const NOTE_2A: Comment := "# IOLake binaries read. "
  const NOTE_2B: Comment := "The OBJECTIO_* lines are "
  const NOTE_2C: Comment := "for the old gateway;"
  const NOTE_3A: Comment := "# remove them once "
  const NOTE_3B: Comment := "the upgrade is finalized."

  /** A newline for a text that lacks its last. */
  function Gap(text: string): string {
    if text != "" && text[|text| - 1] != '\n' then "\n" else ""
  }

  function Joined(a: Comment, b: Comment): Comment { a + b }

  function NoteLines(a: Comment, b: Comment, c: Comment): string { a + "\n" + (b + "\n" + (c + "\n")) }

  function Notice(): string {
    NoteLines(Joined(NOTE_1A, Joined(NOTE_1B, NOTE_1C)), Joined(NOTE_2A, Joined(NOTE_2B, NOTE_2C)),
              Joined(NOTE_3A, NOTE_3B))
  }

  function Upgraded(text: string): string {
    if Additions(text) == [] then text else text + Gap(text) + (Notice() + Print(Additions(text)))
  }

  /** `add_new_vars` */
  method AddNewVars(text: string) returns (added: seq<string>, out: string)
    ensures out == Upgraded(text) && added == Names(Additions(text))
  {
    var defs := Defs(text);
    var defined := Names(defs);
    added := [];
    var lines := "";
    ghost var made: seq<Def> := [];
    assert defined + added == defined && defs[0..] == defs;
    for i := 0 to |defs|
      invariant added == Names(made) && lines == Print(made)
      invariant Missing(defs, defined) == made + Missing(defs[i..], defined + added)
    {
      assert defs[i..][1..] == defs[i + 1..];
      var Def(name, value) := defs[i];
      if !Starts(name) {
        continue;
      }
      var newName := NewName(name);
      assert newName in defined + added <==> newName in defined || newName in added;
      if newName in defined || newName in added {
        continue;
      }
      PrintOn(made, Def(newName, value));
      assert defined + added + [newName] == defined + (added + [newName]);
      lines := lines + (newName + "=" + value + "\n");
      added := added + [newName];
      made := made + [Def(newName, value)];
    }
    assert made == Additions(text) by { assert defs[|defs|..] == []; }
    if added == [] {
      return added, text;
    }
    out := text + Gap(text) + (Notice() + lines);
  }

  lemma {:induction false} PrintOn(ds: seq<Def>, d: Def)
    ensures Print(ds + [d]) == Print(ds) + (d.name + "=" + d.value + "\n")
    ensures Names(ds + [d]) == Names(ds) + [d.name]
  {
    if ds == [] {
      assert ds + [d] == [d] && Print([d][1..]) == "";
    } else {
      assert (ds + [d])[1..] == ds[1..] + [d];
      PrintOn(ds[1..], d);
    }
  }

  // ----- what is added, as lists ------------------------------------------

  /** The value of the first definition of `name`. */
  function First(ds: seq<Def>, name: string): Option<string> {
    if ds == [] then None else if ds[0].name == name then Some(ds[0].value) else First(ds[1..], name)
  }

  /** Every old name of `todo` has its new one among `have`. */
  ghost predicate Covered(todo: seq<Def>, have: seq<string>) {
    forall i :: 0 <= i < |todo| ==> Done(todo[i], have)
  }

  /** New names, none of them among `have`. */
  ghost predicate NewTo(ms: seq<Def>, have: seq<string>) {
    forall i :: 0 <= i < |ms| ==> NEW_VAR <= ms[i].name && ms[i].name !in have
  }

  ghost predicate OnceEach(ms: seq<Def>) {
    forall i, j :: 0 <= i < j < |ms| ==> ms[i].name != ms[j].name
  }

  lemma {:induction false} MissingIsNew(todo: seq<Def>, have: seq<string>)
    ensures NewTo(Missing(todo, have), have) && OnceEach(Missing(todo, have))
  {
    if todo == [] {
    } else if Done(todo[0], have) {
      MissingIsNew(todo[1..], have);
    } else {
      var newName := NewName(todo[0].name);
      var rest := Missing(todo[1..], have + [newName]);
      MissingIsNew(todo[1..], have + [newName]);
      assert newName == (have + [newName])[|have|];
      assert forall x :: x in have ==> x in have + [newName];
    }
  }

  lemma {:induction false} MissingCovers(todo: seq<Def>, have: seq<string>)
    ensures Covered(todo, have + Names(Missing(todo, have)))
  {
    if todo != [] {
      var rest := todo[1..];
      assert forall i :: 0 < i < |todo| ==> todo[i] == rest[i - 1];
      if Done(todo[0], have) {
        MissingCovers(rest, have);
      } else {
        var newName := NewName(todo[0].name);
        MissingCovers(rest, have + [newName]);
        assert have + [newName] + Names(Missing(rest, have + [newName])) == have + Names(Missing(todo, have));
      }
    }
  }

  lemma {:induction false} CoveredAddsNothing(todo: seq<Def>, have: seq<string>)
    requires Covered(todo, have)
    ensures Missing(todo, have) == []
  {
    if todo != [] {
      assert forall i :: 0 <= i < |todo| - 1 ==> todo[1..][i] == todo[i + 1];
      CoveredAddsNothing(todo[1..], have);
    }
  }

  lemma OldNameIs(name: string, x: string)
    ensures Starts(name) && NewName(name) == NEW_VAR + x <==> name == OLD_VAR + x
  {
    if Starts(name) {
      assert name == name[..9] + name[9..];
      assert NewName(name)[7..] == name[9..] && (NEW_VAR + x)[7..] == x;
    }
    if name == OLD_VAR + x { assert name[..9] == OLD_VAR && name[9..] == x; }
  }

  /** A name added carries the first value of the old name. */
  lemma {:induction false} FirstIsCarried(todo: seq<Def>, have: seq<string>, x: string)
    requires NEW_VAR + x !in have
    ensures First(Missing(todo, have), NEW_VAR + x) == First(todo, OLD_VAR + x)
  {
    if todo != [] {
      var name := todo[0].name;
      OldNameIs(name, x);
      if Done(todo[0], have) {
        FirstIsCarried(todo[1..], have, x);
      } else if name != OLD_VAR + x {
        FirstIsCarried(todo[1..], have + [NewName(name)], x);
      }
    }
  }

  /** Where `name` is first defined. */
  function At(ds: seq<Def>, name: string): nat {
    if ds == [] || ds[0].name == name then 0 else 1 + At(ds[1..], name)
  }

  function OldName(name: string): string
    requires NEW_VAR <= name
  {
    OLD_VAR + name[|NEW_VAR|..]
  }

  /** The new names are in the order in which the old ones first occur. */
  lemma {:induction false} AddedInOrder(todo: seq<Def>, have: seq<string>, i: nat, j: nat)
    requires i < j < |Missing(todo, have)|
    ensures var ms := Missing(todo, have);
      && NEW_VAR <= ms[i].name && NEW_VAR <= ms[j].name
      && At(todo, OldName(ms[i].name)) < At(todo, OldName(ms[j].name))
  {
    var ms := Missing(todo, have);
    MissingIsNew(todo, have);
    if Done(todo[0], have) {
      AddedInOrder(todo[1..], have, i, j);
      NotTheFirst(todo, ms[i], have);
      NotTheFirst(todo, ms[j], have);
    } else {
      var newName := NewName(todo[0].name);
      OldNameIs(todo[0].name, newName[|NEW_VAR|..]);
      assert newName == NEW_VAR + newName[|NEW_VAR|..];
      assert ms[0].name == newName != ms[j].name;
      NotTheFirst(todo, ms[j], [newName]);
      if i > 0 {
        AddedInOrder(todo[1..], have + [newName], i - 1, j - 1);
        assert ms[0].name != ms[i].name;
        NotTheFirst(todo, ms[i], [newName]);
      }
    }
  }

  lemma NotTheFirst(todo: seq<Def>, m: Def, have: seq<string>)
    requires todo != [] && Done(todo[0], have) && NEW_VAR <= m.name && m.name !in have
    ensures At(todo, OldName(m.name)) == 1 + At(todo[1..], OldName(m.name))
  {
    OldNameIs(todo[0].name, m.name[|NEW_VAR|..]);
    assert m.name == NEW_VAR + m.name[|NEW_VAR|..];
  }

  // ----- reading what was written -----------------------------------------

  lemma {:induction false} NewlineIs(line: string, rest: string)
    requires '\n' !in line
    ensures Newline(line + "\n" + rest) == |line|
  {
    var s := line + "\n" + rest;
    if line != "" {
      assert s[1..] == line[1..] + "\n" + rest;
      NewlineIs(line[1..], rest);
    }
  }

  lemma LineStep(line: string, rest: string)
    requires '\n' !in line
    ensures Lines(line + "\n" + rest) == [CutReturn(line)] + Lines(rest)
  {
    var s := line + "\n" + rest;
    NewlineIs(line, rest);
    assert s[..|line|] == line && s[|line| + 1..] == rest;
  }

  predicate Ended(text: string) { text == "" || text[|text| - 1] == '\n' }

  lemma FirstLine(text: string) returns (line: string, rest: string)
    requires text != "" && Ended(text)
    ensures text == line + "\n" + rest && '\n' !in line && Ended(rest)
  {
    var n := Newline(text);
    line, rest := text[..n], text[n + 1..];
    assert rest != "" ==> rest[|rest| - 1] == text[|text| - 1];
  }

  lemma {:induction false} LinesJoined(a: string, b: string)
    requires Ended(a)
    ensures Lines(a + b) == Lines(a) + Lines(b)
    decreases |a|
  {
    if a == "" {
      assert a + b == b;
    } else {
      var line, rest := FirstLine(a);
      LinesJoined(rest, b);
      LineJoined(line, rest, b);
    }
  }

  lemma LineJoined(line: string, rest: string, b: string)
    requires '\n' !in line && Lines(rest + b) == Lines(rest) + Lines(b)
    ensures Lines(line + "\n" + rest + b) == Lines(line + "\n" + rest) + Lines(b)
  {
    Regroup(line + "\n", rest, b);
    LineStep(line, rest);
    LineStep(line, rest + b);
    Regroup([CutReturn(line)], Lines(rest), Lines(b));
  }

  lemma {:induction false} DefsJoined(a: seq<string>, b: seq<string>)
    ensures DefsIn(a + b) == DefsIn(a) + DefsIn(b)
  {
    if a == [] {
      assert a + b == b;
    } else {
      assert (a + b)[1..] == a[1..] + b;
      DefsJoined(a[1..], b);
    }
  }

  /** A definition as it is read when a carriage return ends its line. */
  function Cut(d: Def): Def { Def(d.name, CutReturn(d.value)) }

  function CutOption(d: Option<Def>): Option<Def> { if d.None? then None else Some(Cut(d.value)) }

  lemma {:induction false} TrimStartReturn(l: string)
    ensures TrimStart(l + "\r") == if TrimStart(l) == "" then "" else TrimStart(l) + "\r"
  {
    if l == "" {
      assert l + "\r" == "\r" && "\r"[1..] == "";
    } else {
      assert (l + "\r")[1..] == l[1..] + "\r";
      if IsWhitespace(l[0]) { TrimStartReturn(l[1..]); }
    }
  }

  lemma StripExportReturn(t: string)
    requires t != ""
    ensures StripExport(t + "\r") == StripExport(t) + "\r"
  {
    var u := t + "\r";
    assert u[..|t|] == t && u[|t|] == '\r';
    if "export " <= u {
      assert '\r' !in "export ";
      assert "export " == u[..7] && |t| >= 7;
      assert "export " <= t && u[7..] == t[7..] + "\r";
    }
  }

  lemma {:induction false} SplitOnceReturn(t: string)
    ensures SplitOnce(t + "\r") ==
      if SplitOnce(t).None? then None else Some((SplitOnce(t).value.0, SplitOnce(t).value.1 + "\r"))
  {
    var u := t + "\r";
    if t == "" {
      assert u == "\r" && u[1..] == "";
    } else {
      assert u[1..] == t[1..] + "\r";
      SplitOnceReturn(t[1..]);
    }
  }

  /** Cutting a line's carriage return cuts its value's. */
  lemma SetByCut(line: string)
    requires line != "" && line[|line| - 1] == '\r'
    ensures SetBy(CutReturn(line)) == CutOption(SetBy(line))
  {
    var l := CutReturn(line);
    assert line == l + "\r";
    TrimStartReturn(l);
    var t := TrimStart(l);
    if t != "" {
      StripExportReturn(t);
      SplitOnceReturn(StripExport(t));
      var r := SplitOnce(StripExport(t));
      if r.Some? { assert CutReturn(r.value.1 + "\r") == r.value.1; }
    }
  }

  function LastLine(text: string): string {
    if Newline(text) < 0 then text else LastLine(text[Newline(text) + 1..])
  }

  /** The last line sets a variable and ends in a bare carriage return. */
  predicate EndsInReturn(text: string) {
    text != "" && text[|text| - 1] == '\r' && SetBy(LastLine(text)).Some?
  }

  /** Ending the last line keeps every name, and every value exactly unless that
      line sets one that ends in a bare carriage return. */
  lemma GapKeeps(text: string)
    ensures Names(Defs(text + Gap(text))) == Names(Defs(text))
    ensures Defs(text + Gap(text)) == Defs(text) <==> !EndsInReturn(text)
  {
    if Gap(text) == "" {
      assert text + Gap(text) == text;
    } else {
      EndingKeeps(text);
    }
  }

  ghost predicate EndingKept(text: string)
    requires text != ""
  {
    && Names(Defs(text + "\n")) == Names(Defs(text))
    && (Defs(text + "\n") == Defs(text) <==> !EndsInReturn(text))
  }

  lemma {:induction false} EndingKeeps(text: string)
    requires !Ended(text)
    ensures EndingKept(text)
    decreases |text|
  {
    var n := Newline(text);
    if n < 0 {
      EndingOneLine(text);
    } else {
      var line, rest := text[..n], text[n + 1..];
      assert text == line + "\n" + rest;
      EndingKeeps(rest);
      EndingStep(line, rest);
    }
  }

  lemma EndingOneLine(line: string)
    requires line != "" && '\n' !in line
    ensures EndingKept(line)
  {
    LineStep(line, "");
    assert line + "\n" + "" == line + "\n";
    assert Lines(line + "\n") == [CutReturn(line)];
    if line[|line| - 1] == '\r' {
      SetByCut(line);
      if SetBy(line).Some? { SetByReturn(line); }
    }
    OneLine(line);
    OneLine(CutReturn(line));
  }

  /** A line's carriage return is its value's. */
  lemma SetByReturn(line: string)
    requires line != "" && line[|line| - 1] == '\r' && SetBy(line).Some?
    ensures Cut(SetBy(line).value) != SetBy(line).value
  {
    var l := CutReturn(line);
    assert line == l + "\r";
    TrimStartReturn(l);
    var t := TrimStart(l);
    if t != "" {
      StripExportReturn(t);
      SplitOnceReturn(StripExport(t));
    }
  }

  lemma LastLineOn(line: string, rest: string)
    requires '\n' !in line
    ensures LastLine(line + "\n" + rest) == LastLine(rest)
  {
    var s := line + "\n" + rest;
    NewlineIs(line, rest);
    assert s[|line| + 1..] == rest;
  }

  lemma JoinedSame(a: seq<Def>, b: seq<Def>, c: seq<Def>)
    ensures a + b == a + c <==> b == c
  {
    assert (a + b)[|a|..] == b && (a + c)[|a|..] == c;
  }

  lemma EndingStep(line: string, rest: string)
    requires '\n' !in line && rest != "" && EndingKept(rest)
    ensures EndingKept(line + "\n" + rest)
  {
    Regroup(line + "\n", rest, "\n");
    LineStep(line, rest);
    LineStep(line, rest + "\n");
    var first := [CutReturn(line)];
    DefsJoined(first, Lines(rest));
    DefsJoined(first, Lines(rest + "\n"));
    NamesJoined(DefsIn(first), Defs(rest));
    NamesJoined(DefsIn(first), Defs(rest + "\n"));
    JoinedSame(DefsIn(first), Defs(rest + "\n"), Defs(rest));
    LastLineOn(line, rest);
  }

  lemma OneLine(line: string)
    ensures DefsIn([line]) == if SetBy(line).None? then [] else [SetBy(line).value]
  {
    assert [line][1..] == [];
  }

  lemma {:induction false} NamesJoined(a: seq<Def>, b: seq<Def>)
    ensures Names(a + b) == Names(a) + Names(b)
  {
  }

  // ----- the lines added --------------------------------------------------

  lemma {:induction false} TrimStartIsASuffix(s: string, c: char)
    ensures c !in s ==> c !in TrimStart(s)
    ensures TrimStart(s) == "" || !IsWhitespace(TrimStart(s)[0])
  {
    if s != "" && IsWhitespace(s[0]) { TrimStartIsASuffix(s[1..], c); }
  }

  lemma {:induction false} TrimEndIsAPrefix(s: string, c: char)
    ensures c !in s ==> c !in TrimEnd(s)
    ensures TrimEnd(s) == "" || !IsWhitespace(TrimEnd(s)[|TrimEnd(s)| - 1])
  {
    if s != "" && IsWhitespace(s[|s| - 1]) { TrimEndIsAPrefix(s[..|s| - 1], c); }
  }

  lemma {:induction false} SplitOnceParts(s: string, c: char)
    ensures SplitOnce(s).None? <==> '=' !in s
    ensures SplitOnce(s).Some? ==> '=' !in SplitOnce(s).value.0
    ensures SplitOnce(s).Some? && c !in s ==> c !in SplitOnce(s).value.0 && c !in SplitOnce(s).value.1
  {
    if s != "" {
      SplitOnceParts(s[1..], c);
      assert s == [s[0]] + s[1..];
    }
  }

  /** What a line can set: a name without `=`, not ending in white space. */
  ghost predicate Settable(d: Def) {
    && '\n' !in d.name && '\n' !in d.value && '=' !in d.name
    && (d.name == "" || !IsWhitespace(d.name[|d.name| - 1]))
  }

  lemma SetByIsSettable(line: string)
    requires '\n' !in line
    ensures SetBy(line).Some? ==> Settable(SetBy(line).value)
  {
    TrimStartIsASuffix(line, '\n');
    var t := StripExport(TrimStart(line));
    SplitOnceParts(t, '\n');
    var r := SplitOnce(t);
    if r.Some? {
      TrimStartIsASuffix(r.value.0, '\n');
      TrimStartIsASuffix(r.value.0, '=');
      TrimEndIsAPrefix(TrimStart(r.value.0), '\n');
      TrimEndIsAPrefix(TrimStart(r.value.0), '=');
    }
  }

  ghost predicate AllSettable(ds: seq<Def>) {
    forall i :: 0 <= i < |ds| ==> Settable(ds[i])
  }

  ghost predicate SingleLines(lines: seq<string>) {
    forall i :: 0 <= i < |lines| ==> '\n' !in lines[i]
  }

  lemma {:induction false} LinesAreSingle(text: string)
    ensures SingleLines(Lines(text))
    decreases |text|
  {
    if text == "" {
    } else if Newline(text) < 0 {
      assert Lines(text) == [text];
    } else {
      var line, rest := text[..Newline(text)], text[Newline(text) + 1..];
      LinesAreSingle(rest);
      assert Lines(text) == [CutReturn(line)] + Lines(rest);
      assert '\n' !in CutReturn(line);
    }
  }

  lemma {:induction false} DefsAreSettable(lines: seq<string>)
    requires SingleLines(lines)
    ensures AllSettable(DefsIn(lines))
  {
    if lines != [] {
      SetByIsSettable(lines[0]);
      DefsAreSettable(lines[1..]);
    }
  }

  lemma {:induction false} MissingIsSettable(todo: seq<Def>, have: seq<string>)
    requires AllSettable(todo)
    ensures AllSettable(Missing(todo, have))
  {
    if todo == [] {
    } else if Done(todo[0], have) {
      MissingIsSettable(todo[1..], have);
    } else {
      var name := todo[0].name;
      MissingIsSettable(todo[1..], have + [NewName(name)]);
      var tail := name[9..];
      assert NewName(name)[|NewName(name)| - 1] == (if tail == "" then '_' else tail[|tail| - 1]);
      assert Settable(Def(NewName(name), todo[0].value));
    }
  }

  lemma {:induction false} SplitOnceAt(a: string, b: string)
    requires '=' !in a
    ensures SplitOnce(a + "=" + b) == Some((a, b))
  {
    var s := a + "=" + b;
    if a == "" {
      assert s[1..] == b;
    } else {
      assert s[1..] == a[1..] + "=" + b;
      SplitOnceAt(a[1..], b);
      assert [a[0]] + a[1..] == a;
    }
  }

  /** A new line sets its name, and its value less a final carriage return. */
  lemma PrintedIsSet(d: Def)
    requires Settable(d) && NEW_VAR <= d.name
    ensures SetBy(CutReturn(d.name + "=" + d.value)) == Some(Cut(d))
  {
    assert CutReturn(d.name + "=" + d.value) == d.name + "=" + CutReturn(d.value);
    assert d.name[0] == NEW_VAR[0] == 'I';
    PlainLineIsSet(d.name, CutReturn(d.value));
  }

  lemma PlainLineIsSet(name: string, value: string)
    requires '=' !in name && name != "" && name[0] == 'I' && !IsWhitespace(name[|name| - 1])
    ensures SetBy(name + "=" + value) == Some(Def(name, value))
  {
    var line := name + "=" + value;
    assert line[0] == 'I' && "export "[0] == 'e';
    assert TrimStart(line) == line && StripExport(line) == line;
    SplitOnceAt(name, value);
  }

  lemma {:induction false} PrintIsReadBack(ds: seq<Def>)
    requires AllSettable(ds) && forall i :: 0 <= i < |ds| ==> NEW_VAR <= ds[i].name
    ensures Defs(Print(ds)) == CutAll(ds)
  {
    if ds != [] {
      var line := ds[0].name + "=" + ds[0].value;
      LineStep(line, Print(ds[1..]));
      PrintedIsSet(ds[0]);
      PrintIsReadBack(ds[1..]);
      var lines := [CutReturn(line)] + Lines(Print(ds[1..]));
      assert lines[1..] == Lines(Print(ds[1..]));
    }
  }

  function CutAll(ds: seq<Def>): (r: seq<Def>)
    ensures |r| == |ds| && forall i :: 0 <= i < |ds| ==> r[i] == Cut(ds[i])
  {
    if ds == [] then [] else [Cut(ds[0])] + CutAll(ds[1..])
  }

  lemma NoteSetsNothing(note: Comment, rest: string)
    ensures Defs(note + "\n" + rest) == Defs(rest)
  {
    LineStep(note, rest);
    TrimStartIsASuffix(note, '=');
    SplitOnceParts(StripExport(TrimStart(note)), '=');
    var lines := [note] + Lines(rest);
    assert lines[1..] == Lines(rest);
  }

  lemma NotesSetNothing(a: Comment, b: Comment, c: Comment, rest: string)
    ensures Defs(NoteLines(a, b, c) + rest) == Defs(rest)
  {
    assert NoteLines(a, b, c) + rest == a + "\n" + (b + "\n" + (c + "\n" + rest));
    NoteSetsNothing(a, b + "\n" + (c + "\n" + rest));
    NoteSetsNothing(b, c + "\n" + rest);
    NoteSetsNothing(c, rest);
  }

  lemma NoticeSetsNothing(rest: string)
    ensures Defs(Notice() + rest) == Defs(rest)
  {
    NotesSetNothing(Joined(NOTE_1A, Joined(NOTE_1B, NOTE_1C)), Joined(NOTE_2A, Joined(NOTE_2B, NOTE_2C)),
                    Joined(NOTE_3A, NOTE_3B), rest);
  }

  lemma NotesAreLines(a: Comment, b: Comment, c: Comment)
    ensures Lines(NoteLines(a, b, c)) == [a, b, c]
  {
    NoteIsALine(c, "");
    assert c + "\n" + "" == c + "\n";
    NoteIsALine(b, c + "\n");
    NoteIsALine(a, b + "\n" + (c + "\n"));
  }

  lemma NoteIsALine(note: Comment, rest: string)
    ensures Lines(note + "\n" + rest) == [note] + Lines(rest)
  {
    LineStep(note, rest);
  }

  lemma StartsAsFirst(a: Comment, b: Comment)
    requires "#" <= a
    ensures "#" <= Joined(a, b)
  {
    assert Joined(a, b)[0] == a[0];
  }

  lemma NotesAreComments(a: Comment, b: Comment, c: Comment)
    requires "#" <= a && "#" <= b && "#" <= c
    ensures |Lines(NoteLines(a, b, c))| == 3 && forall i :: 0 <= i < 3 ==> "#" <= Lines(NoteLines(a, b, c))[i]
  {
    NotesAreLines(a, b, c);
  }

  lemma NoticeIsComments()
    ensures |Lines(Notice())| == 3 && forall i :: 0 <= i < 3 ==> "#" <= Lines(Notice())[i]
  {
    StartsAsFirst(NOTE_1A, Joined(NOTE_1B, NOTE_1C));
    StartsAsFirst(NOTE_2A, Joined(NOTE_2B, NOTE_2C));
    StartsAsFirst(NOTE_3A, NOTE_3B);
    NotesAreComments(Joined(NOTE_1A, Joined(NOTE_1B, NOTE_1C)), Joined(NOTE_2A, Joined(NOTE_2B, NOTE_2C)),
                     Joined(NOTE_3A, NOTE_3B));
  }

  /** The old text, the notice in comments, and then the new lines. */
  lemma NoticeComesFirst(text: string) returns (before: string, notice: string)
    requires Additions(text) != []
    ensures Upgraded(text) == before + (notice + Print(Additions(text))) && before == text + Gap(text)
    ensures |Lines(notice)| == 3 && forall i :: 0 <= i < 3 ==> "#" <= Lines(notice)[i]
  {
    before, notice := text + Gap(text), Notice();
    NoticeIsComments();
  }

  // ----- the upgraded file ------------------------------------------------

  lemma AdditionsAreSettable(text: string)
    ensures AllSettable(Additions(text))
  {
    LinesAreSingle(text);
    DefsAreSettable(Lines(text));
    MissingIsSettable(Defs(text), Names(Defs(text)));
  }

  /** The new file says what the old one said, then the new lines, and the
      notice says nothing. */
  lemma UpgradedReads(text: string)
    requires Additions(text) != []
    ensures Defs(Upgraded(text)) == Defs(text + Gap(text)) + CutAll(Additions(text))
  {
    var more := Additions(text);
    LinesJoined(text + Gap(text), Notice() + Print(more));
    DefsJoined(Lines(text + Gap(text)), Lines(Notice() + Print(more)));
    NoticeSetsNothing(Print(more));
    AdditionsAreSettable(text);
    MissingIsNew(Defs(text), Names(Defs(text)));
    PrintIsReadBack(more);
  }

  /** Nothing is taken out, and the names read afterwards are those read before
      and then each new name once. */
  lemma NamesAreAdded(text: string)
    ensures text <= Upgraded(text)
    ensures Names(Defs(Upgraded(text))) == Names(Defs(text)) + Names(Additions(text))
    ensures NewTo(Additions(text), Names(Defs(text))) && OnceEach(Additions(text))
  {
    MissingIsNew(Defs(text), Names(Defs(text)));
    if Additions(text) != [] {
      UpgradedReads(text);
      GapKeeps(text);
      NamesJoined(Defs(text + Gap(text)), CutAll(Additions(text)));
      CutKeepsNames(Additions(text));
    }
  }

  lemma CutKeepsNames(ds: seq<Def>)
    ensures Names(CutAll(ds)) == Names(ds)
  {
  }

  lemma CoveredByName(a: seq<Def>, b: seq<Def>, have: seq<string>)
    requires Covered(a, have) && Names(a) == Names(b)
    ensures Covered(b, have)
  {
    forall i | 0 <= i < |b|
      ensures Done(b[i], have)
    {
      assert Names(a)[i] == Names(b)[i];
      assert Done(a[i], have);
    }
  }

  lemma NewIsNotOld(name: string)
    ensures NEW_VAR <= name ==> !Starts(name)
  {
    assert NEW_VAR[0] != OLD_VAR[0];
  }

  /** The upgraded file has a new name for each old one. */
  lemma EveryOldNameHasItsNew(text: string)
    ensures Covered(Defs(Upgraded(text)), Names(Defs(Upgraded(text))))
  {
    var defs, more := Defs(text), Additions(text);
    var names := Names(defs) + Names(more);
    NamesAreAdded(text);
    MissingCovers(defs, Names(defs));
    assert Covered(defs, names);
    if more == [] {
      assert Upgraded(text) == text;
    } else {
      UpgradedReads(text);
      GapKeeps(text);
      CoveredByName(defs, Defs(text + Gap(text)), names);
      forall i | 0 <= i < |more|
        ensures Done(CutAll(more)[i], names)
      {
        NewIsNotOld(more[i].name);
      }
    }
  }

  /** Upgrading again changes nothing. */
  lemma UpgradingTwiceIsOnce(text: string)
    ensures Additions(Upgraded(text)) == [] && Upgraded(Upgraded(text)) == Upgraded(text)
  {
    EveryOldNameHasItsNew(text);
    CoveredAddsNothing(Defs(Upgraded(text)), Names(Defs(Upgraded(text))));
  }

  // ----- the values carried over ------------------------------------------

  lemma {:induction false} FirstJoined(a: seq<Def>, b: seq<Def>, name: string)
    requires name !in Names(a)
    ensures First(a + b, name) == First(b, name)
  {
    if a == [] {
      assert a + b == b;
    } else {
      assert (a + b)[1..] == a[1..] + b;
      assert Names(a)[0] == a[0].name;
      FirstJoined(a[1..], b, name);
    }
  }

  lemma {:induction false} FirstCut(ds: seq<Def>, name: string)
    ensures First(CutAll(ds), name) == CutValue(First(ds, name))
  {
    if ds != [] { FirstCut(ds[1..], name); }
  }

  lemma {:induction false} FirstNone(ds: seq<Def>, name: string)
    requires name !in Names(ds)
    ensures First(ds, name) == None
  {
    if ds != [] { FirstNone(ds[1..], name); }
  }

  function CutValue(v: Option<string>): Option<string> {
    if v.None? then None else Some(CutReturn(v.value))
  }

  /** A name the file lacked is read with the old name's first value, if it has
      one, less a final carriage return. */
  lemma ValuesAreCarried(text: string, x: string)
    requires NEW_VAR + x !in Names(Defs(text))
    ensures First(Defs(Upgraded(text)), NEW_VAR + x) == CutValue(First(Defs(text), OLD_VAR + x))
  {
    var names, more := Names(Defs(text)), Additions(text);
    FirstIsCarried(Defs(text), names, x);
    if more == [] {
      FirstNone(Defs(text), NEW_VAR + x);
    } else {
      UpgradedReads(text);
      GapKeeps(text);
      FirstJoined(Defs(text + Gap(text)), CutAll(more), NEW_VAR + x);
      FirstCut(more, NEW_VAR + x);
    }
  }

  /** The lines that were there are read as before exactly unless the last of them
      ends in a bare carriage return. */
  lemma OldValuesSurvive(text: string)
    requires Additions(text) != []
    ensures Defs(text) <= Defs(Upgraded(text)) <==> !EndsInReturn(text)
  {
    var ended := Defs(text + Gap(text));
    UpgradedReads(text);
    GapKeeps(text);
    assert |ended| == |Names(ended)| == |Names(Defs(text))| == |Defs(text)|;
    assert Defs(Upgraded(text))[..|ended|] == ended;
  }

  /** So the value survives exactly when no carriage return ends it. */
  lemma ValueSurvives(text: string, x: string)
    requires NEW_VAR + x !in Names(Defs(text)) && First(Defs(text), OLD_VAR + x).Some?
    ensures First(Defs(Upgraded(text)), NEW_VAR + x) == First(Defs(text), OLD_VAR + x)
      <==> var v := First(Defs(text), OLD_VAR + x).value; v == "" || v[|v| - 1] != '\r'
  {
    ValuesAreCarried(text, x);
  }
}
