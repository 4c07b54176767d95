/** The console's reader of Prometheus text, against a printer written from the
    Prometheus text exposition format: what is printed is read back, label
    values included, unless a label value holds a newline.

    `Number.parseFloat` is a parameter: `read`, returning nothing for NaN. */
module Exposition {
  import opened Basics

  datatype Sample = Sample(name: string, labels: map<string, string>, value: real)

  // ----- the reader -------------------------------------------------------

  function Lines(text: string): (ls: seq<string>)
    ensures ls != []
  {
    if text == "" then [""] else
    var rest := Lines(text[1..]);
    if text[0] == '\n' then [""] + rest else [[text[0]] + rest[0]] + rest[1..]
  }

  /** The first index of `c`, or -1. */
  function IndexOf(s: string, c: char): int {
    if s == "" then -1
    else if s[0] == c then 0
    else var i := IndexOf(s[1..], c); if i < 0 then -1 else i + 1
  }

  /** The last index of `c` that is at most `upto`, or -1. */
  function LastIndexOf(s: string, c: char, upto: int): (i: int)
    requires -1 <= upto < |s|
    ensures -1 <= i <= upto
    decreases upto + 1
  {
    if upto < 0 then -1 else if s[upto] == c then upto else LastIndexOf(s, c, upto - 1)
  }

  /** JavaScript's `slice`: a negative end counts from the back, and an end
      before the start gives nothing. */
  function Slice(s: string, start: nat, end: int): string
    requires start <= |s| && -|s| <= end <= |s|
  {
    var e := if end < 0 then end + |s| else end;
    if e < start then "" else s[start..e]
  }

  predicate NameStart(c: char) { 'a' <= c <= 'z' || 'A' <= c <= 'Z' || c == '_' }

  predicate NameChar(c: char) { NameStart(c) || '0' <= c <= '9' }

  /** What `.` does not match. */
  predicate LineEnd(c: char) { c == '\n' || c == '\r' || c == '\U{2028}' || c == '\U{2029}' }

  /** How many characters `[a-zA-Z0-9_]*` takes. */
  function NameRun(s: string): (n: nat)
    ensures n <= |s|
  {
    if s != "" && NameChar(s[0]) then 1 + NameRun(s[1..]) else 0
  }

  /** How many characters `(?:[^"\\]|\\.)*` takes. */
  function BodyRun(s: string): (n: nat)
    ensures n <= |s|
  {
    if s == "" || s[0] == '"' then 0
    else if s[0] != '\\' then 1 + BodyRun(s[1..])
    else if |s| > 1 && !LineEnd(s[1]) then 2 + BodyRun(s[2..])
    else 0
  }

  datatype Match = Match(name: string, body: string, rest: string)

  /** A match of the label expression at the start of `s`. */
  function MatchHere(s: string): Option<Match> {
    if s == "" || !NameStart(s[0]) then None else
    var n := 1 + NameRun(s[1..]);
    if !(n + 1 < |s| && s[n] == '=' && s[n + 1] == '"') then None else
    var b := n + 2 + BodyRun(s[n + 2..]);
    if !(b < |s| && s[b] == '"') then None else
    Some(Match(s[..n], s[n + 2..b], s[b + 1..]))
  }

  /** `.replace(/\\"/g, '"')` */
  function UnquoteQuotes(s: string): string {
    if s == "" then ""
    else if |s| > 1 && s[0] == '\\' && s[1] == '"' then "\"" + UnquoteQuotes(s[2..])
    else [s[0]] + UnquoteQuotes(s[1..])
  }

  /** `.replace(/\\\\/g, "\\")` */
  function UnquoteBackslashes(s: string): string {
    if s == "" then ""
    else if |s| > 1 && s[0] == '\\' && s[1] == '\\' then "\\" + UnquoteBackslashes(s[2..])
    else [s[0]] + UnquoteBackslashes(s[1..])
  }

  function Unescape(body: string): string { UnquoteBackslashes(UnquoteQuotes(body)) }

  /** Every label in `s`: leftmost match after leftmost match, a later one of the
      same name winning. */
  function LabelsIn(s: string): map<string, string>
    decreases |s|
  {
    if s == "" then map[] else
    match MatchHere(s)
    case Some(m) => map[m.name := Unescape(m.body)] + LabelsIn(m.rest)
    case None => LabelsIn(s[1..])
  }

  method ReadLabels(s: string) returns (labels: map<string, string>)
    ensures labels == LabelsIn(s)
  {
    labels := map[];
    var rest := s;
    while rest != ""
      invariant LabelsIn(s) == labels + LabelsIn(rest)
      decreases |rest|
    {
      match MatchHere(rest) {
        case Some(m) =>
          labels := labels[m.name := Unescape(m.body)];
          rest := m.rest;
        case None =>
          rest := rest[1..];
      }
    }
  }

  /** A line taken apart; no text of labels without braces. */
  datatype Parts = Parts(name: string, text: Option<string>, value: real)

  /** One line's parts, or nothing for a comment or a malformed line. */
  function PartsOf(line: string, read: string -> Option<real>): Option<Parts> {
    if line == "" || line[0] == '#' then None else
    var brace := IndexOf(line, '{');
    var space := LastIndexOf(line, ' ', |line| - 1);
    if space < 0 then None else
    var value := read(line[space + 1..]);
    if value.None? then None else
    if brace < 0 || brace > space then Some(Parts(line[..space], None, value.value)) else
    Some(Parts(line[..brace], Some(Slice(line, brace + 1, LastIndexOf(line, '}', space))), value.value))
  }

  function SampleOf(p: Option<Parts>): Option<Sample> {
    match p
    case None => None
    case Some(Parts(name, text, value)) =>
      Some(Sample(name, if text.None? then map[] else LabelsIn(text.value), value))
  }

  function LineSample(line: string, read: string -> Option<real>): Option<Sample> { SampleOf(PartsOf(line, read)) }

  function SamplesOf(lines: seq<string>, read: string -> Option<real>): seq<Sample> {
    if lines == [] then [] else
    match LineSample(lines[0], read)
    case Some(s) => [s] + SamplesOf(lines[1..], read)
    case None => SamplesOf(lines[1..], read)
  }

  method ParseLine(line: string, read: string -> Option<real>) returns (sample: Option<Sample>)
    ensures sample == LineSample(line, read)
  {
    if line == "" || line[0] == '#' {
      return None;
    }
    var brace := IndexOf(line, '{');
    var space := LastIndexOf(line, ' ', |line| - 1);
    if space < 0 {
      return None;
    }
    var value := read(line[space + 1..]);
    if value.None? {
      return None;
    }
    if brace < 0 || brace > space {
      return Some(Sample(line[..space], map[], value.value));
    }
    var close := LastIndexOf(line, '}', space);
    var labels := ReadLabels(Slice(line, brace + 1, close));
    return Some(Sample(line[..brace], labels, value.value));
  }

  /** `parse`: every sample in `text`. */
  method Parse(text: string, read: string -> Option<real>) returns (out: seq<Sample>)
    ensures out == SamplesOf(Lines(text), read)
  {
    out := [];
    var lines := Lines(text);
    for i := 0 to |lines|
      invariant SamplesOf(lines, read) == out + SamplesOf(lines[i..], read)
    {
      assert lines[i..][1..] == lines[i + 1..];
      var sample := ParseLine(lines[i], read);
      if sample.Some? {
        out := out + [sample.value];
      }
    }
  }

  // ----- line by line -----------------------------------------------------

  lemma {:induction false} LinesJoined(a: string, b: string)
    ensures Lines(a + "\n" + b) == Lines(a) + Lines(b)
  {
    var text := a + "\n" + b;
    if a == "" {
      assert text[1..] == b;
    } else {
      assert text[1..] == a[1..] + "\n" + b;
      LinesJoined(a[1..], b);
    }
  }

  lemma {:induction false} OneLine(line: string)
    requires '\n' !in line
    ensures Lines(line) == [line]
  {
    if line != "" {
      OneLine(line[1..]);
      assert [line[0]] + line[1..] == line;
    }
  }

  lemma {:induction false} SamplesJoined(a: seq<string>, b: seq<string>, read: string -> Option<real>)
    ensures SamplesOf(a + b, read) == SamplesOf(a, read) + SamplesOf(b, read)
  {
    if a == [] {
      assert a + b == b;
    } else {
      assert (a + b)[1..] == a[1..] + b;
      SamplesJoined(a[1..], b, read);
    }
  }

  /** What a text says it says line by line: nothing on a line, skipped or not, changes
      what is read from the others. */
  lemma TextIsReadByLines(a: string, line: string, b: string, read: string -> Option<real>)
    requires '\n' !in line
    ensures SamplesOf(Lines(a + "\n" + b), read) == SamplesOf(Lines(a), read) + SamplesOf(Lines(b), read)
    ensures SamplesOf(Lines(line), read) == match LineSample(line, read) { case Some(s) => [s] case None => [] }
  {
    LinesJoined(a, b);
    SamplesJoined(Lines(a), Lines(b), read);
    OneLine(line);
    assert SamplesOf([line][1..], read) == [];
  }

  // ----- a line, declaratively --------------------------------------------

  /** `s` is `a`, `c` and `b`, and `c` is not in `b`: cut at the last one. */
  ghost predicate CutAtLast(s: string, c: char, a: string, b: string) { s == a + [c] + b && c !in b }

  /** `s` is `a`, `c` and `b`, and `c` is not in `a`: cut at the first one. */
  ghost predicate CutAtFirst(s: string, c: char, a: string, b: string) { s == a + [c] + b && c !in a }

  /** The labels are between the first `{` and the last `}` before the number.
      Where no `}` is after the `{`, there are none; where there is no `}` at all,
      all of the line but its last character is taken for them. */
  ghost predicate LabelTextIs(line: string, name: string, rest: string, text: string) {
    if '}' in rest then exists tail :: CutAtLast(rest, '}', text, tail)
    else if '}' in name then text == ""
    else |name| + 1 < |line| && text == line[|name| + 1..|line| - 1]
  }

  /** The name, and the text of the labels, in what is before the number. */
  ghost predicate HeadIs(line: string, head: string, p: Parts) {
    match p.text
    case None => '{' !in head && p.name == head
    case Some(text) => exists rest :: CutAtFirst(head, '{', p.name, rest) && LabelTextIs(line, p.name, rest, text)
  }

  /** What a line says: nothing, when it is empty or a comment, has no space, or
      has no number after its last one; else that number and what is before it. */
  ghost predicate IsLineOf(line: string, read: string -> Option<real>, p: Option<Parts>) {
    if line == "" || line[0] == '#' || ' ' !in line then p.None?
    else exists head, number :: CutAtLast(line, ' ', head, number) && NumberAndHead(line, head, read(number), p)
  }

  ghost predicate NumberAndHead(line: string, head: string, number: Option<real>, p: Option<Parts>) {
    match p
    case None => number.None?
    case Some(parts) => number == Some(parts.value) && HeadIs(line, head, parts)
  }

  lemma {:induction false} LastIndexIs(s: string, c: char, upto: int)
    requires -1 <= upto < |s|
    ensures var i := LastIndexOf(s, c, upto);
      (i >= 0 ==> s[i] == c) && forall j :: i < j <= upto ==> s[j] != c
    decreases upto + 1
  {
    if upto >= 0 && s[upto] != c { LastIndexIs(s, c, upto - 1); }
  }

  lemma {:induction false} FirstIndexIs(s: string, c: char)
    ensures var i := IndexOf(s, c);
      -1 <= i < |s| && (i < 0 <==> c !in s) && (i >= 0 ==> s[i] == c && c !in s[..i])
  {
    if s != "" && s[0] != c {
      FirstIndexIs(s[1..], c);
      var i := IndexOf(s[1..], c);
      assert s == [s[0]] + s[1..];
      assert i >= 0 ==> s[..i + 1] == [s[0]] + s[1..][..i];
    }
  }

  /** The parts found are those the line has. */
  lemma PartsAreTheLine(line: string, read: string -> Option<real>)
    ensures IsLineOf(line, read, PartsOf(line, read))
  {
    if line != "" && line[0] != '#' {
      LastIndexIs(line, ' ', |line| - 1);
      if ' ' in line {
        var at := LastIndexOf(line, ' ', |line| - 1);
        var head, number := line[..at], line[at + 1..];
        assert CutAtLast(line, ' ', head, number);
        SpacedLine(line, head, read);
      }
    }
  }

  lemma SpacedLine(line: string, head: string, read: string -> Option<real>)
    requires line != "" && line[0] != '#' && head <= line && |head| < |line| && line[|head|] == ' '
    requires LastIndexOf(line, ' ', |line| - 1) == |head|
    ensures NumberAndHead(line, head, read(line[|head| + 1..]), PartsOf(line, read))
  {
    if read(line[|head| + 1..]).Some? { HeadIsTaken(line, head, read); }
  }

  lemma LastCutIsUnique(s: string, c: char, a: string, b: string, a': string, b': string)
    requires CutAtLast(s, c, a, b) && CutAtLast(s, c, a', b')
    ensures a == a' && b == b'
  {
    assert s[|a|] == s[|a'|] == c;
    assert forall i :: |a| < i < |s| ==> s[i] == b[i - |a| - 1];
    assert forall i :: |a'| < i < |s| ==> s[i] == b'[i - |a'| - 1];
    assert |a| == |a'|;
    assert a == s[..|a|] == a' && b == s[|a| + 1..] == b';
  }

  lemma FirstCutIsUnique(s: string, c: char, a: string, b: string, a': string, b': string)
    requires CutAtFirst(s, c, a, b) && CutAtFirst(s, c, a', b')
    ensures a == a' && b == b'
  {
    assert s[|a|] == s[|a'|] == c;
    assert forall i :: 0 <= i < |a| ==> s[i] == a[i];
    assert forall i :: 0 <= i < |a'| ==> s[i] == a'[i];
    assert |a| == |a'|;
    assert a == s[..|a|] == a' && b == s[|a| + 1..] == b';
  }

  lemma HeadIsUnique(line: string, head: string, p: Parts, q: Parts)
    requires HeadIs(line, head, p) && HeadIs(line, head, q)
    ensures p.name == q.name && p.text == q.text
  {
    if p.text.Some? && q.text.Some? {
      var r :| CutAtFirst(head, '{', p.name, r) && LabelTextIs(line, p.name, r, p.text.value);
      var r' :| CutAtFirst(head, '{', q.name, r') && LabelTextIs(line, q.name, r', q.text.value);
      FirstCutIsUnique(head, '{', p.name, r, q.name, r');
      if '}' in r {
        var t :| CutAtLast(r, '}', p.text.value, t);
        var t' :| CutAtLast(r, '}', q.text.value, t');
        LastCutIsUnique(r, '}', p.text.value, t, q.text.value, t');
      }
    }
  }

  /** And it has no others. */
  lemma PartsAreUnique(line: string, read: string -> Option<real>, p: Option<Parts>, q: Option<Parts>)
    requires IsLineOf(line, read, p) && IsLineOf(line, read, q)
    ensures p == q
  {
    if line != "" && line[0] != '#' && ' ' in line {
      var h, n :| CutAtLast(line, ' ', h, n) && NumberAndHead(line, h, read(n), p);
      var h', n' :| CutAtLast(line, ' ', h', n') && NumberAndHead(line, h', read(n'), q);
      LastCutIsUnique(line, ' ', h, n, h', n');
      if p.Some? { HeadIsUnique(line, h, p.value, q.value); }
    }
  }

  lemma HeadIsTaken(line: string, head: string, read: string -> Option<real>)
    requires line != "" && line[0] != '#' && head <= line && |head| < |line| && line[|head|] == ' '
    requires LastIndexOf(line, ' ', |line| - 1) == |head| && read(line[|head| + 1..]).Some?
    ensures NumberAndHead(line, head, read(line[|head| + 1..]), PartsOf(line, read))
  {
    var brace := IndexOf(line, '{');
    FirstIndexIs(line, '{');
    IndexInPrefix(line, head, '{');
    assert line[..|head|] == head;
    if '{' in head {
      var close := LastIndexOf(line, '}', |head|);
      LastInHead(line, head, '}');
      LabelledHead(line, head, brace, close, read(line[|head| + 1..]).value);
      LabelledParts(line, brace, |head|, close, read);
    }
  }

  lemma LabelledHead(line: string, head: string, brace: nat, close: int, value: real)
    requires head <= line && |head| < |line| && brace < |head| && head[brace] == '{' && '{' !in head[..brace]
    requires line[..brace] == head[..brace] && -1 <= close < |head|
    requires (close < 0 <==> '}' !in head) && (close >= 0 ==> head[close] == '}' && '}' !in head[close + 1..])
    ensures HeadIs(line, head, Parts(line[..brace], Some(Slice(line, brace + 1, close)), value))
  {
    var name, rest := head[..brace], head[brace + 1..];
    assert CutAtFirst(head, '{', name, rest);
    TextIsTaken(line, head, name, rest, close);
  }

  lemma LabelledParts(line: string, brace: nat, at: nat, close: int, read: string -> Option<real>)
    requires line != "" && line[0] != '#' && brace < at < |line| && -1 <= close <= at
    requires IndexOf(line, '{') == brace && LastIndexOf(line, ' ', |line| - 1) == at
    requires LastIndexOf(line, '}', at) == close && read(line[at + 1..]).Some?
    ensures PartsOf(line, read) ==
      Some(Parts(line[..brace], Some(Slice(line, brace + 1, close)), read(line[at + 1..]).value))
  {
  }

  lemma PartsHold(s: string, i: nat)
    requires i <= |s|
    ensures forall k :: 0 <= k < i ==> s[k] in s[..i]
    ensures forall k :: i <= k < |s| ==> s[k] in s[i..]
  {
    forall k | i <= k < |s| ensures s[k] in s[i..] { assert s[i..][k - i] == s[k]; }
  }

  lemma IndexInPrefix(s: string, p: string, c: char)
    requires p <= s
    ensures c in p <==> 0 <= IndexOf(s, c) < |p|
    ensures c in p ==> var i := IndexOf(s, c); p[i] == c && c !in p[..i] && s[..i] == p[..i]
  {
    var i := IndexOf(s, c);
    FirstIndexIs(s, c);
    assert 0 <= i < |p| ==> p[i] == s[i];
    if c in p {
      var k :| 0 <= k < |p| && p[k] == c;
      assert s[k] == c;
      PartsHold(s, i);
      assert s[..i] == p[..i];
    }
  }

  /** The last `c` of `head`, sought in a line from the space after it. */
  lemma LastInHead(line: string, head: string, c: char)
    requires head <= line && |head| < |line| && line[|head|] != c
    ensures var k := LastIndexOf(line, c, |head|);
      (k < 0 <==> c !in head) && (k >= 0 ==> k < |head| && head[k] == c && c !in head[k + 1..])
  {
    var k := LastIndexOf(line, c, |head|);
    LastIndexIs(line, c, |head|);
    assert forall j :: 0 <= j < |head| ==> line[j] == head[j];
    if k >= 0 {
      var tail := head[k + 1..];
      forall j | 0 <= j < |tail| ensures tail[j] != c { assert tail[j] == line[k + 1 + j]; }
    }
  }

  lemma TextIsTaken(line: string, head: string, name: string, rest: string, close: int)
    requires head == name + "{" + rest && head <= line && |head| < |line| && -1 <= close < |head|
    requires (close < 0 <==> '}' !in head) && (close >= 0 ==> head[close] == '}' && '}' !in head[close + 1..])
    ensures LabelTextIs(line, name, rest, Slice(line, |name| + 1, close))
  {
    if '}' in rest {
      assert '}' in head by { assert forall c :: c in rest ==> c in head; }
      TextBeforeBrace(head, name, rest, close);
      assert Slice(line, |name| + 1, close) == head[|name| + 1..close];
    } else if close >= 0 {
      BraceIsBefore(head, name, rest, close);
    } else {
      assert '}' !in name by { assert forall c :: c in name ==> c in head; }
    }
  }

  lemma TextBeforeBrace(head: string, name: string, rest: string, close: int)
    requires head == name + "{" + rest && '}' in rest
    requires 0 <= close < |head| && head[close] == '}' && '}' !in head[close + 1..]
    ensures |name| < close && CutAtLast(rest, '}', head[|name| + 1..close], head[close + 1..])
  {
    var i :| 0 <= i < |rest| && rest[i] == '}';
    assert head[|name| + 1 + i] == '}';
    PartsHold(head, close + 1);
    var k := close - |name| - 1;
    assert rest[k] == head[close];
    assert rest == rest[..k] + [rest[k]] + rest[k + 1..];
    assert rest[k + 1..] == head[close + 1..] && rest[..k] == head[|name| + 1..close];
  }

  lemma BraceIsBefore(head: string, name: string, rest: string, close: int)
    requires head == name + "{" + rest && '}' !in rest && 0 <= close < |head| && head[close] == '}'
    ensures close < |name| && '}' in name
  {
    assert head[|name|] == '{';
    assert forall k :: |name| < k < |head| ==> head[k] in rest by {
      forall k | |name| < k < |head| ensures head[k] in rest { assert head[k] == rest[k - |name| - 1]; }
    }
    assert name[close] == head[close];
  }

  // ----- the label expression, declaratively ------------------------------

  /** The language of `(?:[^"\\]|\\.)*`. */
  predicate IsBody(s: string) {
    s == "" ||
    (s[0] != '"' && s[0] != '\\' && IsBody(s[1..])) ||
    (|s| > 1 && s[0] == '\\' && !LineEnd(s[1]) && IsBody(s[2..]))
  }

  predicate IsLabelName(s: string) {
    s != "" && NameStart(s[0]) && forall i :: 0 <= i < |s| ==> NameChar(s[i])
  }

  /** `s` starts with a label: name, `="`, body and `"`. */
  ghost predicate StartsWithLabel(s: string, m: Match) {
    IsLabelName(m.name) && IsBody(m.body) && s == m.name + "=\"" + m.body + "\"" + m.rest
  }

  lemma {:induction false} NameRunTakes(name: string, rest: string)
    requires forall i :: 0 <= i < |name| ==> NameChar(name[i])
    requires rest != "" && !NameChar(rest[0])
    ensures NameRun(name + rest) == |name|
  {
    if name == "" {
      assert name + rest == rest;
    } else {
      assert (name + rest)[1..] == name[1..] + rest;
      NameRunTakes(name[1..], rest);
    }
  }

  lemma {:induction false} BodyRunTakes(body: string, rest: string)
    requires IsBody(body) && rest != "" && rest[0] == '"'
    ensures BodyRun(body + rest) == |body|
  {
    if body == "" {
      assert body + rest == rest;
    } else if body[0] != '\\' {
      assert (body + rest)[1..] == body[1..] + rest;
      BodyRunTakes(body[1..], rest);
    } else {
      assert (body + rest)[2..] == body[2..] + rest;
      BodyRunTakes(body[2..], rest);
    }
  }

  lemma {:induction false} BodyRunIsBody(s: string)
    ensures IsBody(s[..BodyRun(s)])
  {
    if s == "" || s[0] == '"' {
    } else if s[0] != '\\' {
      BodyRunIsBody(s[1..]);
      assert s[..BodyRun(s)][1..] == s[1..][..BodyRun(s[1..])];
    } else if |s| > 1 && !LineEnd(s[1]) {
      BodyRunIsBody(s[2..]);
      assert s[..BodyRun(s)][2..] == s[2..][..BodyRun(s[2..])];
    }
  }

  lemma {:induction false} NameRunIsName(s: string)
    ensures forall i :: 0 <= i < NameRun(s) ==> NameChar(s[i])
  {
    if s != "" && NameChar(s[0]) {
      NameRunIsName(s[1..]);
    }
  }

  lemma LabelIsFound(s: string, m: Match)
    requires StartsWithLabel(s, m)
    ensures MatchHere(s) == Some(m)
  {
    var n, b := |m.name|, |m.name| + 2 + |m.body|;
    var quote := "\"" + m.rest;
    var tail := "=\"" + (m.body + quote);
    LabelSlices(s, m, tail, quote);
    NameRunTakes(m.name[1..], tail);
    BodyRunTakes(m.body, quote);
    MatchByRuns(s, n, b);
  }

  lemma LabelSlices(s: string, m: Match, tail: string, quote: string)
    requires m.name != "" && s == m.name + "=\"" + m.body + "\"" + m.rest
    requires quote == "\"" + m.rest && tail == "=\"" + (m.body + quote)
    ensures var n, b := |m.name|, |m.name| + 2 + |m.body|;
      && s[0] == m.name[0] && s[1..] == m.name[1..] + tail && s[..n] == m.name && s[n] == '=' && s[n + 1] == '"'
      && s[n + 2..] == m.body + quote && s[n + 2..b] == m.body && s[b] == '"' && s[b + 1..] == m.rest
  {
  }

  lemma MatchByRuns(s: string, n: nat, b: nat)
    requires 0 < n && n + 2 <= b < |s| && NameStart(s[0]) && NameRun(s[1..]) == n - 1 && s[n] == '=' && s[n + 1] == '"'
    requires BodyRun(s[n + 2..]) == b - n - 2 && s[b] == '"'
    ensures MatchHere(s) == Some(Match(s[..n], s[n + 2..b], s[b + 1..]))
  {
  }

  lemma FoundIsALabel(s: string, m: Match)
    requires MatchHere(s) == Some(m)
    ensures StartsWithLabel(s, m)
  {
    var n := 1 + NameRun(s[1..]);
    NameRunIsName(s[1..]);
    HeadIsAName(s, n);
    var k := BodyRun(s[n + 2..]);
    BodyRunIsBody(s[n + 2..]);
    PartsAreALabel(s, n, k, m);
  }

  lemma PartsAreALabel(s: string, n: nat, k: nat, m: Match)
    requires n + 2 + k < |s| && s[n] == '=' && s[n + 1] == '"' && s[n + 2 + k] == '"'
    requires IsLabelName(s[..n]) && IsBody(s[n + 2..][..k])
    requires m == Match(s[..n], s[n + 2..n + 2 + k], s[n + 2 + k + 1..])
    ensures StartsWithLabel(s, m)
  {
    assert s[n + 2..][..k] == s[n + 2..n + 2 + k];
    LabelParts(s, n, n + 2 + k);
  }

  lemma HeadIsAName(s: string, n: nat)
    requires 0 < n <= |s| && NameStart(s[0])
    requires forall i :: 0 <= i < n - 1 ==> NameChar(s[1..][i])
    ensures IsLabelName(s[..n])
  {
    forall i | 0 <= i < n ensures NameChar(s[..n][i]) {
      assert i > 0 ==> s[i] == s[1..][i - 1];
    }
  }

  lemma LabelParts(s: string, n: nat, b: nat)
    requires n + 2 <= b < |s| && s[n] == '=' && s[n + 1] == '"' && s[b] == '"'
    ensures s == s[..n] + "=\"" + s[n + 2..b] + "\"" + s[b + 1..]
  {
  }

  /** Taking as much as possible loses no match: the scan finds a label exactly
      when there is one, and there is only one way to read it. */
  lemma ScanIsTheExpression(s: string, m: Match)
    ensures MatchHere(s) == Some(m) <==> StartsWithLabel(s, m)
  {
    if StartsWithLabel(s, m) { LabelIsFound(s, m); }
    if MatchHere(s) == Some(m) { FoundIsALabel(s, m); }
  }

  /** No label starts before `i`. */
  ghost predicate NoneBefore(s: string, i: nat)
    requires i <= |s|
  {
    forall k, m :: 0 <= k < i ==> !StartsWithLabel(s[k..], m)
  }

  lemma {:induction false} LabelsSkip(s: string, i: nat)
    requires i <= |s| && NoneBefore(s, i)
    ensures LabelsIn(s) == LabelsIn(s[i..])
    decreases i
  {
    if i == 0 {
      assert s[0..] == s;
    } else {
      assert s[0..] == s;
      if MatchHere(s).Some? { ScanIsTheExpression(s, MatchHere(s).value); }
      forall k, m | 0 <= k < i - 1 ensures !StartsWithLabel(s[1..][k..], m) {
        assert s[1..][k..] == s[k + 1..];
      }
      LabelsSkip(s[1..], i - 1);
      assert s[1..][i - 1..] == s[i..];
    }
  }

  /** The labels of any text: the leftmost, over which a later one of its name wins,
      and those of what is after it; none where none starts. */
  lemma LabelsAreLeftmost(s: string, i: nat, m: Match)
    requires i <= |s| && NoneBefore(s, i)
    ensures i == |s| ==> LabelsIn(s) == map[]
    ensures StartsWithLabel(s[i..], m) ==> LabelsIn(s) == map[m.name := UnescapeOnce(m.body)] + LabelsIn(m.rest)
  {
    LabelsSkip(s, i);
    if StartsWithLabel(s[i..], m) {
      ScanIsTheExpression(s[i..], m);
      TwoPassesAreOne(m.body);
    }
  }

  /** One pass over the escapes. */
  function UnescapeOnce(s: string): string {
    if s == "" then ""
    else if |s| > 1 && s[0] == '\\' && (s[1] == '"' || s[1] == '\\') then [s[1]] + UnescapeOnce(s[2..])
    else if |s| > 1 && s[0] == '\\' then [s[0], s[1]] + UnescapeOnce(s[2..])
    else [s[0]] + UnescapeOnce(s[1..])
  }

  lemma PlainPass(c: char, t: string)
    requires c != '\\'
    ensures Unescape([c] + t) == [c] + Unescape(t) && UnescapeOnce([c] + t) == [c] + UnescapeOnce(t)
  {
    assert ([c] + t)[1..] == t;
    var q := UnquoteQuotes(t);
    assert UnquoteQuotes([c] + t) == [c] + q;
    assert ([c] + q)[1..] == q;
  }

  lemma QuotePass(t: string)
    ensures Unescape("\\\"" + t) == "\"" + Unescape(t) && UnescapeOnce("\\\"" + t) == "\"" + UnescapeOnce(t)
  {
    assert ("\\\"" + t)[2..] == t;
    var q := UnquoteQuotes(t);
    assert UnquoteQuotes("\\\"" + t) == "\"" + q;
    assert ("\"" + q)[1..] == q;
  }

  lemma BackslashPass(t: string)
    requires t == "" || t[0] != '"'
    ensures Unescape("\\\\" + t) == "\\" + Unescape(t) && UnescapeOnce("\\\\" + t) == "\\" + UnescapeOnce(t)
  {
    assert ("\\\\" + t)[2..] == t;
    var q := UnquoteQuotes(t);
    BackslashesStay(t);
    assert ("\\\\" + q)[2..] == q;
  }

  lemma BackslashesStay(t: string)
    requires t == "" || t[0] != '"'
    ensures UnquoteQuotes("\\\\" + t) == "\\\\" + UnquoteQuotes(t)
  {
    assert ("\\\\" + t)[1..] == "\\" + t && ("\\" + t)[1..] == t;
    assert UnquoteQuotes("\\" + t) == "\\" + UnquoteQuotes(t);
  }

  lemma OtherPass(c: char, t: string)
    requires c != '\\' && c != '"'
    ensures Unescape(['\\', c] + t) == ['\\', c] + Unescape(t)
    ensures UnescapeOnce(['\\', c] + t) == ['\\', c] + UnescapeOnce(t)
  {
    var s := ['\\', c] + t;
    assert s[1..] == [c] + t && s[2..] == t && ([c] + t)[1..] == t;
    var q := UnquoteQuotes(t);
    assert UnquoteQuotes([c] + t) == [c] + q;
    assert UnquoteQuotes(s) == ['\\', c] + q;
    OtherEscapeStays(c, q);
  }

  lemma OtherEscapeStays(c: char, s: string)
    requires c != '\\'
    ensures UnquoteBackslashes(['\\', c] + s) == ['\\', c] + UnquoteBackslashes(s)
  {
    assert (['\\', c] + s)[1..] == [c] + s;
    assert ([c] + s)[1..] == s;
    var u := UnquoteBackslashes(s);
    assert ['\\'] + ([c] + u) == ['\\', c] + u;
  }

  /** The two successive replacements undo the escapes as one pass does. */
  lemma {:induction false} TwoPassesAreOne(body: string)
    requires IsBody(body)
    ensures Unescape(body) == UnescapeOnce(body)
  {
    if body != "" && body[0] != '\\' {
      var t := body[1..];
      TwoPassesAreOne(t);
      assert body == [body[0]] + t;
      PlainPass(body[0], t);
    } else if body != "" {
      var c, t := body[1], body[2..];
      TwoPassesAreOne(t);
      assert body == ['\\', c] + t;
      if c == '"' {
        QuotePass(t);
      } else if c == '\\' {
        BackslashPass(t);
      } else {
        OtherPass(c, t);
      }
    }
  }

  // ----- the printer ------------------------------------------------------

  function Escape(v: string): string {
    if v == "" then "" else
    (if v[0] == '\\' then "\\\\" else if v[0] == '"' then "\\\"" else if v[0] == '\n' then "\\n" else [v[0]])
      + Escape(v[1..])
  }

  datatype Label = Label(name: string, value: string)

  datatype Item = Comment(text: string) | Metric(name: string, labels: seq<Label>, value: real)

  function PrintLabel(l: Label): string { l.name + "=\"" + Escape(l.value) + "\"" }

  function PrintLabels(ls: seq<Label>): string {
    if ls == [] then ""
    else if |ls| == 1 then PrintLabel(ls[0])
    else PrintLabel(ls[0]) + "," + PrintLabels(ls[1..])
  }

  function PrintLine(item: Item, show: real -> string): string {
    match item
    case Comment(text) => "#" + text
    case Metric(name, ls, value) =>
      if ls == [] then name + " " + show(value)
      else name + "{" + PrintLabels(ls) + "}" + " " + show(value)
  }

  function PrintText(items: seq<Item>, show: real -> string): string {
    if items == [] then "" else PrintLine(items[0], show) + "\n" + PrintText(items[1..], show)
  }

  predicate MetricChar(c: char) { NameChar(c) || c == ':' }

  /** What the format allows to be printed. */
  ghost predicate Printable(item: Item) {
    match item
    case Comment(text) => '\n' !in text
    case Metric(name, ls, _) =>
      && name != "" && (forall i :: 0 <= i < |name| ==> MetricChar(name[i]))
      && (forall i :: 0 <= i < |ls| ==> IsLabelName(ls[i].name))
      && (forall i, j :: 0 <= i < j < |ls| ==> ls[i].name != ls[j].name)
  }

  /** An item's number is printed without a space or a line end, and the reader
      of numbers reads it back. */
  predicate NumberReadsBack(item: Item, show: real -> string, read: string -> Option<real>) {
    item.Metric? ==>
      var number := show(item.value);
      read(number) == Some(item.value) && ' ' !in number && '\n' !in number
  }

  ghost predicate AllPrintable(items: seq<Item>, show: real -> string, read: string -> Option<real>) {
    forall i :: 0 <= i < |items| ==> Printable(items[i]) && NumberReadsBack(items[i], show, read)
  }

  function LabelMap(ls: seq<Label>): map<string, string> {
    if ls == [] then map[] else map[ls[0].name := ls[0].value] + LabelMap(ls[1..])
  }

  /** The samples a text is printed from. */
  function Printed(items: seq<Item>): seq<Sample> {
    if items == [] then [] else
    match items[0]
    case Comment(_) => Printed(items[1..])
    case Metric(name, ls, value) => [Sample(name, LabelMap(ls), value)] + Printed(items[1..])
  }

  // ----- what is printed is read back -------------------------------------

  /** A newline as the two characters it is printed as. */
  function NewlinesSpelt(v: string): string {
    if v == "" then "" else (if v[0] == '\n' then "\\n" else [v[0]]) + NewlinesSpelt(v[1..])
  }

  lemma {:induction false} EscapedIsBody(v: string)
    ensures IsBody(Escape(v)) && UnescapeOnce(Escape(v)) == NewlinesSpelt(v)
    ensures '\n' !in Escape(v)
  {
    if v != "" {
      EscapedIsBody(v[1..]);
      var e := Escape(v[1..]);
      assert Escape(v)[1..] == e || Escape(v)[2..] == e;
    }
  }

  /** A value survives exactly when it holds no newline. */
  lemma {:induction false} SpeltIsSame(v: string)
    ensures |NewlinesSpelt(v)| >= |v|
    ensures NewlinesSpelt(v) == v <==> '\n' !in v
    ensures '\n' in v ==> |NewlinesSpelt(v)| > |v|
  {
    if v != "" {
      SpeltIsSame(v[1..]);
      assert v == [v[0]] + v[1..];
    }
  }

  function ReadBack(ls: seq<Label>): map<string, string> {
    if ls == [] then map[] else map[ls[0].name := NewlinesSpelt(ls[0].value)] + ReadBack(ls[1..])
  }

  lemma {:induction false} LabelsAreReadBack(ls: seq<Label>)
    requires forall i :: 0 <= i < |ls| ==> IsLabelName(ls[i].name)
    ensures LabelsIn(PrintLabels(ls)) == ReadBack(ls)
  {
    if ls != [] {
      LabelsAreReadBack(ls[1..]);
      if |ls| == 1 {
        assert PrintLabel(ls[0]) + "" == PrintLabels(ls);
        OneLabelRead(ls[0], "");
      } else {
        var rest := PrintLabels(ls[1..]);
        assert PrintLabel(ls[0]) + ("," + rest) == PrintLabels(ls);
        OneLabelRead(ls[0], "," + rest);
        CommaSkipped(rest);
      }
    }
  }

  lemma OneLabelRead(l: Label, rest: string)
    requires IsLabelName(l.name)
    ensures LabelsIn(PrintLabel(l) + rest) == map[l.name := NewlinesSpelt(l.value)] + LabelsIn(rest)
  {
    EscapedIsBody(l.value);
    TwoPassesAreOne(Escape(l.value));
    LabelIsFound(PrintLabel(l) + rest, Match(l.name, Escape(l.value), rest));
  }

  lemma CommaSkipped(s: string)
    ensures LabelsIn("," + s) == LabelsIn(s)
  {
    assert ("," + s)[1..] == s;
  }

  lemma {:induction false} FirstIndex(s: string, c: char, rest: string)
    requires c !in s
    ensures rest != "" && rest[0] == c ==> IndexOf(s + rest, c) == |s|
    ensures var i := IndexOf(s + rest, c); i < 0 || i >= |s|
  {
    if s == "" {
      assert s + rest == rest;
    } else {
      assert (s + rest)[1..] == s[1..] + rest;
      FirstIndex(s[1..], c, rest);
    }
  }

  lemma {:induction false} LastIndex(s: string, c: char, upto: int, at: nat)
    requires at <= upto < |s| && s[at] == c && forall i :: at < i <= upto ==> s[i] != c
    ensures LastIndexOf(s, c, upto) == at
    decreases upto
  {
    if at < upto { LastIndex(s, c, upto - 1, at); }
  }

  /** One sample's line, read back. */
  lemma LineIsReadBack(item: Item, show: real -> string, read: string -> Option<real>)
    requires item.Metric? && Printable(item) && NumberReadsBack(item, show, read)
    ensures LineSample(PrintLine(item, show), read) == Some(Sample(item.name, ReadBack(item.labels), item.value))
  {
    var Metric(name, ls, value) := item;
    assert '{' !in name && name[0] != '#' by { assert forall i :: 0 <= i < |name| ==> MetricChar(name[i]); }
    if ls == [] {
      BareLine(name + " " + show(value), name, show(value), read);
    } else {
      LabelsAreReadBack(ls);
      var head := name + "{" + PrintLabels(ls) + "}";
      LabelledLine(head + " " + show(value), head, name, PrintLabels(ls), show(value), read);
    }
  }

  lemma LastSpace(line: string, head: string, number: string)
    requires line == head + " " + number && ' ' !in number
    ensures LastIndexOf(line, ' ', |line| - 1) == |head| && line[|head| + 1..] == number && line[..|head|] == head
  {
    forall i | |head| < i <= |line| - 1 ensures line[i] != ' ' { assert line[i] == number[i - |head| - 1]; }
    LastIndex(line, ' ', |line| - 1, |head|);
  }

  lemma BareLine(line: string, name: string, number: string, read: string -> Option<real>)
    requires name != "" && name[0] != '#' && '{' !in name && ' ' !in number && read(number).Some?
    requires line == name + " " + number
    ensures PartsOf(line, read) == Some(Parts(name, None, read(number).value))
  {
    LastSpace(line, name, number);
    FirstIndexIs(line, '{');
    IndexInPrefix(line, name, '{');
    BareParts(line, |name|, read);
  }

  lemma BareParts(line: string, at: nat, read: string -> Option<real>)
    requires line != "" && line[0] != '#' && at < |line| && LastIndexOf(line, ' ', |line| - 1) == at
    requires line[at] == ' ' && (IndexOf(line, '{') < 0 || IndexOf(line, '{') >= at)
    requires IndexOf(line, '{') >= 0 ==> IndexOf(line, '{') < |line| && line[IndexOf(line, '{')] == '{'
    requires read(line[at + 1..]).Some?
    ensures PartsOf(line, read) == Some(Parts(line[..at], None, read(line[at + 1..]).value))
  {
  }

  lemma BracesAreFound(line: string, name: string, text: string, rest: string)
    requires line == name + "{" + text + "}" + rest && '{' !in name && rest != "" && rest[0] != '}'
    ensures var at := |name| + |text| + 2;
      && IndexOf(line, '{') == |name| && LastIndexOf(line, '}', at) == at - 1
      && Slice(line, |name| + 1, at - 1) == text && line[..|name|] == name
  {
    var at := |name| + |text| + 2;
    assert line == name + ("{" + text + "}" + rest);
    FirstIndex(name, '{', "{" + text + "}" + rest);
    assert line[at - 1] == '}' && line[at] == rest[0];
    LastIndex(line, '}', at, at - 1);
  }

  lemma LabelledLine(
    line: string, head: string, name: string, text: string, number: string, read: string -> Option<real>)
    requires name != "" && name[0] != '#' && '{' !in name && ' ' !in number && read(number).Some?
    requires head == name + "{" + text + "}" && line == head + " " + number
    ensures PartsOf(line, read) == Some(Parts(name, Some(text), read(number).value))
  {
    LastSpace(line, head, number);
    BracesAreFound(line, name, text, " " + number);
    assert line[0] == name[0];
    LabelledParts(line, |name|, |head|, |head| - 1, read);
  }

  lemma LineEndsThere(line: string, rest: string)
    requires '\n' !in line
    ensures Lines(line + "\n" + rest) == [line] + Lines(rest)
  {
    LinesJoined(line, rest);
    OneLine(line);
  }

  lemma {:induction false} LabelsStayOnTheLine(ls: seq<Label>)
    requires forall i :: 0 <= i < |ls| ==> IsLabelName(ls[i].name)
    ensures '\n' !in PrintLabels(ls)
  {
    if ls != [] {
      EscapedIsBody(ls[0].value);
      LabelsStayOnTheLine(ls[1..]);
    }
  }

  lemma LineHasNoNewline(item: Item, show: real -> string, read: string -> Option<real>)
    requires Printable(item) && NumberReadsBack(item, show, read)
    ensures '\n' !in PrintLine(item, show)
  {
    if item.Metric? {
      LabelsStayOnTheLine(item.labels);
      assert '\n' !in show(item.value);
    }
  }

  /** What a printed sample reads back as. */
  function Reread(items: seq<Item>): seq<Sample> {
    if items == [] then [] else
    match items[0]
    case Comment(_) => Reread(items[1..])
    case Metric(name, ls, value) => [Sample(name, ReadBack(ls), value)] + Reread(items[1..])
  }

  /** Reading a printed text gives its samples in order, comments skipped, each
      label value with its newlines spelt out. */
  lemma {:induction false} TextIsReadBack(items: seq<Item>, show: real -> string, read: string -> Option<real>)
    requires AllPrintable(items, show, read)
    ensures SamplesOf(Lines(PrintText(items, show)), read) == Reread(items)
  {
    if items == [] {
      assert SamplesOf([""], read) == SamplesOf([""][1..], read) == [];
    } else {
      var line := PrintLine(items[0], show);
      LineHasNoNewline(items[0], show, read);
      LineEndsThere(line, PrintText(items[1..], show));
      TextIsReadBack(items[1..], show, read);
      var lines := Lines(PrintText(items, show));
      assert lines[0] == line && lines[1..] == Lines(PrintText(items[1..], show));
      if items[0].Metric? { LineIsReadBack(items[0], show, read); }
    }
  }

  ghost predicate NoNewlines(ls: seq<Label>) {
    forall i :: 0 <= i < |ls| ==> '\n' !in ls[i].value
  }

  lemma {:induction false} KeysAreNames(ls: seq<Label>, k: string)
    ensures k in LabelMap(ls) <==> exists i :: 0 <= i < |ls| && ls[i].name == k
    ensures k in ReadBack(ls) <==> k in LabelMap(ls)
  {
    if ls != [] {
      KeysAreNames(ls[1..], k);
      assert forall i :: 0 < i < |ls| ==> ls[i] == ls[1..][i - 1];
    }
  }

  lemma {:induction false} ReadBackIsTheMap(ls: seq<Label>)
    requires forall i, j :: 0 <= i < j < |ls| ==> ls[i].name != ls[j].name
    ensures ReadBack(ls) == LabelMap(ls) <==> NoNewlines(ls)
  {
    if ls != [] {
      var l, rest := ls[0], ls[1..];
      ReadBackIsTheMap(rest);
      SpeltIsSame(l.value);
      KeysAreNames(rest, l.name);
      assert l.name !in LabelMap(rest) && l.name !in ReadBack(rest);
      ExtendSame(ReadBack(rest), LabelMap(rest), l.name, NewlinesSpelt(l.value), l.value);
      assert forall i :: 0 < i < |ls| ==> ls[i] == rest[i - 1];
    }
  }

  lemma ExtendSame(a: map<string, string>, b: map<string, string>, k: string, x: string, y: string)
    requires k !in a && k !in b
    ensures map[k := x] + a == map[k := y] + b <==> x == y && a == b
  {
    var a', b' := map[k := x] + a, map[k := y] + b;
    if a' == b' {
      assert x == a'[k] == b'[k] == y;
      assert a == a' - {k} == b' - {k} == b;
    }
  }

  /** The round trip: a printed text is read back as the samples it was printed
      from exactly when no label value holds a newline. */
  lemma {:induction false} RoundTrip(items: seq<Item>, show: real -> string, read: string -> Option<real>)
    requires AllPrintable(items, show, read)
    ensures SamplesOf(Lines(PrintText(items, show)), read) == Printed(items) <==>
      forall i :: 0 <= i < |items| && items[i].Metric? ==> NoNewlines(items[i].labels)
  {
    TextIsReadBack(items, show, read);
    RereadIsPrinted(items);
  }

  lemma {:induction false} RereadIsPrinted(items: seq<Item>)
    requires forall i :: 0 <= i < |items| ==> Printable(items[i])
    ensures |Reread(items)| == |Printed(items)|
    ensures Reread(items) == Printed(items) <==>
      forall i :: 0 <= i < |items| && items[i].Metric? ==> NoNewlines(items[i].labels)
  {
    if items != [] {
      var rest := items[1..];
      RereadIsPrinted(rest);
      assert forall i :: 0 < i < |items| ==> items[i] == rest[i - 1];
      if items[0].Metric? {
        ReadBackIsTheMap(items[0].labels);
        assert Reread(items)[0].labels == ReadBack(items[0].labels) && Reread(items)[1..] == Reread(rest);
        assert Printed(items)[0].labels == LabelMap(items[0].labels) && Printed(items)[1..] == Printed(rest);
      }
    }
  }

  // ----- lines with a timestamp -------------------------------------------

  /** A line is read as any account of it says. */
  lemma ReadAs(line: string, head: string, number: string, p: Parts, read: string -> Option<real>)
    requires line != "" && line[0] != '#' && CutAtLast(line, ' ', head, number)
    requires read(number) == Some(p.value) && HeadIs(line, head, p)
    ensures PartsOf(line, read) == Some(p)
  {
    assert line[|head|] == ' ';
    assert IsLineOf(line, read, Some(p));
    PartsAreTheLine(line, read);
    PartsAreUnique(line, read, PartsOf(line, read), Some(p));
  }

  lemma StampedBare(name: string, number: string, stamp: string, read: string -> Option<real>)
    requires name != "" && name[0] != '#' && '{' !in name && '{' !in number && ' ' !in stamp && read(stamp).Some?
    ensures PartsOf(name + " " + number + " " + stamp, read) ==
      Some(Parts(name + " " + number, None, read(stamp).value))
  {
    var head := name + " " + number;
    ReadAs(head + " " + stamp, head, stamp, Parts(head, None, read(stamp).value), read);
  }

  lemma StampedLabelled(
    head: string, name: string, text: string, number: string, stamp: string, read: string -> Option<real>)
    requires name != "" && name[0] != '#' && '{' !in name && '}' !in number && ' ' !in stamp && read(stamp).Some?
    requires head == name + "{" + text + "}" + " " + number
    ensures PartsOf(head + " " + stamp, read) == Some(Parts(name, Some(text), read(stamp).value))
  {
    var line, p := head + " " + stamp, Parts(name, Some(text), read(stamp).value);
    Regroup(name + "{" + text + "}", " ", number);
    StampedHead(line, head, name, text, " " + number, p);
    assert line[0] == name[0];
    ReadAs(line, head, stamp, p, read);
  }

  /** The format allows a timestamp after the value. It is taken for the value,
      and a name without labels then holds the value: such a line is read right
      exactly when it has labels and the two numbers are the same. */
  lemma StampIsTheValue(item: Item, stamp: string, show: real -> string, read: string -> Option<real>)
    requires item.Metric? && Printable(item) && '}' !in show(item.value) && '{' !in show(item.value)
    requires ' ' !in stamp && read(stamp).Some?
    ensures LineSample(PrintLine(item, show) + " " + stamp, read) == Some(
      if item.labels == [] then Sample(item.name + " " + show(item.value), map[], read(stamp).value)
      else Sample(item.name, ReadBack(item.labels), read(stamp).value))
  {
    var Metric(name, ls, value) := item;
    assert '{' !in name && name[0] != '#' by { assert forall i :: 0 <= i < |name| ==> MetricChar(name[i]); }
    if ls == [] {
      StampedBare(name, show(value), stamp, read);
    } else {
      StampedLabelled(PrintLine(item, show), name, PrintLabels(ls), show(value), stamp, read);
      LabelsAreReadBack(ls);
    }
  }

  lemma StampedHead(line: string, head: string, name: string, text: string, tail: string, p: Parts)
    requires head == name + "{" + text + "}" + tail && '{' !in name && '}' !in tail
    requires p.name == name && p.text == Some(text)
    ensures HeadIs(line, head, p)
  {
    var rest := text + "}" + tail;
    assert CutAtFirst(head, '{', name, rest);
    assert rest[|text|] == '}' && CutAtLast(rest, '}', text, tail);
  }
}
