/** Canonical paths and queries, as the Go client signs and sends them, and the
    decoder the command-line client's tests read them with.

    Strings are byte strings, as Go's are. Percent-encoding is that of section
    2.1 of RFC 3986, the unreserved characters those of section 2.3. */
module SigV4 {
  import opened Basics
  import opened Sorting
  import Utf8

  const PERCENT: Byte := '%' as int
  const AMPERSAND: Byte := '&' as int
  const PLUS: Byte := '+' as int
  const SLASH: Byte := '/' as int
  const EQUALS: Byte := '=' as int

  predicate Unreserved(c: Byte) {
    65 <= c <= 90 || 97 <= c <= 122 || 48 <= c <= 57 || c == 45 || c == 95 || c == 46 || c == 126
  }

  // ----- escaping ---------------------------------------------------------

  function UpperHex(n: int): Byte
    requires 0 <= n < 16
  {
    if n < 10 then 48 + n else 55 + n
  }

  function EscapeByte(c: Byte): Bytes {
    if Unreserved(c) then [c] else [PERCENT, UpperHex(c / 16), UpperHex(c % 16)]
  }

  function Escape(s: Bytes): Bytes {
    if s == [] then [] else EscapeByte(s[0]) + Escape(s[1..])
  }

  /** `escapeRFC3986` */
  method EscapeRFC3986(s: Bytes) returns (b: Bytes)
    ensures b == Escape(s)
  {
    b := [];
    for i := 0 to |s|
      invariant Escape(s) == b + Escape(s[i..])
    {
      var c := s[i];
      EscapeOn(s, i, b);
      if Unreserved(c) {
        b := b + [c];
      } else {
        b := b + [PERCENT, UpperHex(c / 16), UpperHex(c % 16)];
      }
    }
  }

  lemma EscapeOn(s: Bytes, i: nat, b: Bytes)
    requires i < |s|
    ensures b + Escape(s[i..]) == b + EscapeByte(s[i]) + Escape(s[i + 1..])
  {
    assert s[i..][1..] == s[i + 1..];
  }

  function Split(s: Bytes, sep: Byte): (parts: seq<Bytes>)
    ensures parts != []
  {
    if s == [] then [[]] else
    var rest := Split(s[1..], sep);
    if s[0] == sep then [[]] + rest else [[s[0]] + rest[0]] + rest[1..]
  }

  function Join(parts: seq<Bytes>, sep: Byte): Bytes {
    if parts == [] then [] else if |parts| == 1 then parts[0] else parts[0] + [sep] + Join(parts[1..], sep)
  }

  /** A path escaped byte by byte, its separators kept. */
  function EscapeKeepingSlashes(s: Bytes): Bytes {
    if s == [] then [] else (if s[0] == SLASH then [SLASH] else EscapeByte(s[0])) + EscapeKeepingSlashes(s[1..])
  }

  function EscapeEach(parts: seq<Bytes>): (r: seq<Bytes>)
    ensures |r| == |parts| && forall i :: 0 <= i < |r| ==> r[i] == Escape(parts[i])
  {
    if parts == [] then [] else [Escape(parts[0])] + EscapeEach(parts[1..])
  }

  /** `escapePath` */
  method EscapePath(path: Bytes) returns (r: Bytes)
    ensures r == EscapeKeepingSlashes(path)
  {
    var parts := Split(path, SLASH);
    var segments := new Bytes[|parts|](i requires 0 <= i < |parts| => parts[i]);
    for i := 0 to segments.Length
      invariant forall n :: 0 <= n < i ==> segments[n] == Escape(parts[n])
      invariant forall n :: i <= n < segments.Length ==> segments[n] == parts[n]
    {
      segments[i] := EscapeRFC3986(segments[i]);
    }
    assert segments[..] == EscapeEach(parts);
    r := Join(segments[..], SLASH);
    SegmentsEscaped(path);
  }

  lemma {:induction false} SegmentsEscaped(s: Bytes)
    ensures Join(EscapeEach(Split(s, SLASH)), SLASH) == EscapeKeepingSlashes(s)
  {
    if s != [] {
      SegmentsEscaped(s[1..]);
      var rest := Split(s[1..], SLASH);
      if s[0] == SLASH {
        JoinFirst([], EscapeEach(rest), SLASH);
        assert ([[]] + rest)[1..] == rest;
      } else {
        var head := [s[0]] + rest[0];
        assert head[1..] == rest[0];
        assert ([head] + rest[1..])[1..] == rest[1..];
        assert EscapeEach(rest)[0] == Escape(rest[0]) && EscapeEach(rest)[1..] == EscapeEach(rest[1..]);
        JoinHead(EscapeByte(s[0]), Escape(rest[0]), EscapeEach(rest[1..]), SLASH);
        assert [Escape(rest[0])] + EscapeEach(rest[1..]) == EscapeEach(rest);
      }
    }
  }

  lemma PathFirst(c: Byte, s: Bytes, all: Bytes)
    requires all == [c] + s
    ensures EscapeKeepingSlashes(all) == (if c == SLASH then [SLASH] else EscapeByte(c)) + EscapeKeepingSlashes(s)
  {
    assert all[1..] == s;
  }

  lemma {:induction false} PathWithoutSlash(a: Bytes)
    requires '/' as int !in a
    ensures EscapeKeepingSlashes(a) == Escape(a)
  {
    if a != [] { PathWithoutSlash(a[1..]); }
  }

  /** What is between slashes is escaped by itself, and the slashes stay. */
  lemma {:induction false} PathKeepsSlashes(a: Bytes, b: Bytes, path: Bytes)
    requires path == a + ['/' as int] + b
    ensures EscapeKeepingSlashes(path) == EscapeKeepingSlashes(a) + ['/' as int] + EscapeKeepingSlashes(b)
    ensures '/' as int !in a ==> EscapeKeepingSlashes(a) == Escape(a)
    decreases |a|
  {
    if '/' as int !in a { PathWithoutSlash(a); }
    if a == [] {
      PathFirst(SLASH, b, path);
    } else {
      var first := if a[0] == SLASH then [SLASH] else EscapeByte(a[0]);
      PathKeepsSlashes(a[1..], b, path[1..]);
      PathFirst(a[0], path[1..], path);
      PathFirst(a[0], a[1..], a);
      Regroup(first, EscapeKeepingSlashes(a[1..]), ['/' as int]);
      Regroup(first, EscapeKeepingSlashes(a[1..]) + ['/' as int], EscapeKeepingSlashes(b));
    }
  }

  lemma JoinFirst(first: Bytes, parts: seq<Bytes>, sep: Byte)
    requires parts != []
    ensures Join([first] + parts, sep) == first + [sep] + Join(parts, sep)
  {
    assert ([first] + parts)[1..] == parts;
  }

  lemma JoinHead(a: Bytes, b: Bytes, rest: seq<Bytes>, sep: Byte)
    ensures Join([a + b] + rest, sep) == a + Join([b] + rest, sep)
  {
    if rest != [] {
      JoinFirst(a + b, rest, sep);
      JoinFirst(b, rest, sep);
    }
  }

  // ----- decoding ---------------------------------------------------------

  function HexDigit(c: Byte): Option<int> {
    if 48 <= c <= 57 then Some(c - 48)
    else if 65 <= c <= 70 then Some(c - 55)
    else if 97 <= c <= 102 then Some(c - 87)
    else None
  }

  /** `u8::from_str_radix` of two characters: two hex digits, or a plus sign and one. */
  function HexPair(a: Byte, b: Byte): (r: Option<Byte>) {
    var x, y := HexDigit(a), HexDigit(b);
    if y.None? then None
    else if a == PLUS then Some(y.value)
    else if x.None? then None
    else Some(16 * x.value + y.value)
  }

  function Decoded(s: Bytes): Bytes {
    if s == [] then []
    else if s[0] == PERCENT && |s| > 2 && HexPair(s[1], s[2]).Some? then [HexPair(s[1], s[2]).value] + Decoded(s[3..])
    else [s[0]] + Decoded(s[1..])
  }

  /** The scan comes to a `%` whose next two bytes do not end between characters,
      and cutting the string there stops the program. */
  predicate CutsACharacter(s: Bytes) {
    if s == [] then false
    else if s[0] != PERCENT || |s| <= 2 then CutsACharacter(s[1..])
    else if Utf8.Continues(s[1]) || (|s| > 3 && Utf8.Continues(s[3])) then true
    else if HexPair(s[1], s[2]).Some? then CutsACharacter(s[3..])
    else CutsACharacter(s[1..])
  }

  /** What `decode` makes of a string's bytes; nothing when it stops the program. */
  function ReadText(s: Bytes): Option<string> {
    if CutsACharacter(s) then None else Some(Utf8.Lossy(Decoded(s)))
  }

  /** `out` is what the first `i` bytes decode to, and nothing in them stopped it. */
  ghost predicate ReadTo(s: Bytes, out: Bytes, i: nat) {
    i <= |s| && Decoded(s) == out + Decoded(s[i..]) && CutsACharacter(s) == CutsACharacter(s[i..])
  }

  predicate CutsAt(s: Bytes, i: nat)
    requires i + 2 < |s|
  {
    Utf8.Continues(s[i + 1]) || (i + 3 < |s| && Utf8.Continues(s[i + 3]))
  }

  lemma TookHex(s: Bytes, out: Bytes, i: nat)
    requires ReadTo(s, out, i) && i + 2 < |s| && s[i] == PERCENT && !CutsAt(s, i) && HexPair(s[i + 1], s[i + 2]).Some?
    ensures ReadTo(s, out + [HexPair(s[i + 1], s[i + 2]).value], i + 3)
  {
    assert s[i..][3..] == s[i + 3..];
  }

  lemma TookByte(s: Bytes, out: Bytes, i: nat)
    requires ReadTo(s, out, i) && i < |s|
    requires s[i] == PERCENT && i + 2 < |s| ==> !CutsAt(s, i) && HexPair(s[i + 1], s[i + 2]).None?
    ensures ReadTo(s, out + [s[i]], i + 1)
  {
    assert s[i..][1..] == s[i + 1..];
  }

  lemma Stopped(s: Bytes, out: Bytes, i: nat)
    requires ReadTo(s, out, i) && i + 2 < |s| && s[i] == PERCENT && CutsAt(s, i)
    ensures CutsACharacter(s)
  {
  }

  /** `decode` */
  method Decode(s: Bytes) returns (text: Option<string>)
    ensures text == ReadText(s)
  {
    var out := [];
    var i := 0;
    assert s[0..] == s;
    while i < |s|
      invariant 0 <= i <= |s| && ReadTo(s, out, i)
    {
      if s[i] == PERCENT && i + 2 < |s| {
        if CutsAt(s, i) {
          Stopped(s, out, i);
          return None;
        }
        var b := HexPair(s[i + 1], s[i + 2]);
        if b.Some? {
          TookHex(s, out, i);
          out := out + [b.value];
          i := i + 3;
          continue;
        }
      }
      TookByte(s, out, i);
      out := out + [s[i]];
      i := i + 1;
    }
    assert s[|s|..] == [] && Decoded(s) == out;
    return Some(Utf8.Lossy(out));
  }

  lemma HexRoundTrip(c: Byte)
    ensures HexPair(UpperHex(c / 16), UpperHex(c % 16)) == Some(c)
  {
  }

  lemma DecodeByte(c: Byte, rest: Bytes)
    ensures Decoded(EscapeByte(c) + rest) == [c] + Decoded(rest)
    ensures c == SLASH ==> Decoded([c] + rest) == [c] + Decoded(rest)
  {
    var s := EscapeByte(c) + rest;
    if Unreserved(c) {
      assert s[1..] == rest;
    } else {
      HexRoundTrip(c);
      assert s[1] == UpperHex(c / 16) && s[2] == UpperHex(c % 16) && s[3..] == rest;
    }
    assert ([c] + rest)[1..] == rest;
  }

  /** Decoding undoes escaping, on every byte string. */
  lemma {:induction false} DecodeUndoesEscape(s: Bytes)
    ensures Decoded(Escape(s)) == s
  {
    if s != [] {
      DecodeUndoesEscape(s[1..]);
      DecodeByte(s[0], Escape(s[1..]));
    }
  }

  /** Decoding undoes path escaping, on every path. */
  lemma {:induction false} DecodeUndoesPath(s: Bytes)
    ensures Decoded(EscapeKeepingSlashes(s)) == s
  {
    if s != [] {
      DecodeUndoesPath(s[1..]);
      DecodeByte(s[0], EscapeKeepingSlashes(s[1..]));
    }
  }

  ghost predicate Ascii(s: Bytes) { forall i :: 0 <= i < |s| ==> s[i] < 128 }

  /** The program is stopped only by characters beyond ASCII. */
  lemma {:induction false} AsciiIsSafe(s: Bytes)
    requires Ascii(s)
    ensures !CutsACharacter(s)
    decreases |s|
  {
    if s != [] {
      AsciiIsSafe(s[1..]);
      if |s| > 2 { AsciiIsSafe(s[3..]); }
    }
  }

  lemma {:induction false} EscapedIsAscii(s: Bytes)
    ensures Ascii(Escape(s)) && Ascii(EscapeKeepingSlashes(s))
  {
    if s != [] { EscapedIsAscii(s[1..]); }
  }

  /** Decoding gives back every text that was escaped, as a value or as a path. */
  lemma DecodeGivesTheText(text: string)
    ensures ReadText(Escape(Utf8.BytesOf(text))) == Some(text)
    ensures ReadText(EscapeKeepingSlashes(Utf8.BytesOf(text))) == Some(text)
  {
    var s := Utf8.BytesOf(text);
    EscapedIsAscii(s);
    AsciiIsSafe(Escape(s));
    AsciiIsSafe(EscapeKeepingSlashes(s));
    DecodeUndoesEscape(s);
    DecodeUndoesPath(s);
    Utf8.BytesReadBack(text);
  }

  // ----- the only such text -----------------------------------------------

  const UPPER := "ABCDEFGHIJKLMNOPQRSTUVWXYZ"
  const LOWER := "abcdefghijklmnopqrstuvwxyz"
  const DIGITS := "0123456789"
  const HEX_DIGITS := "0123456789ABCDEF"

  predicate Listed(c: Byte) {
    c as char in UPPER || c as char in LOWER || c as char in DIGITS || c as char in "-_.~"
  }

  lemma InRow(c: char, row: string, first: char)
    requires forall i :: 0 <= i < |row| ==> row[i] as int == first as int + i
    ensures c in row <==> first as int <= c as int < first as int + |row|
  {
    if first as int <= c as int < first as int + |row| {
      assert row[c as int - first as int] == c;
    }
  }

  /** The 66 characters left as they are. */
  lemma UnreservedIsListed(c: Byte)
    ensures Unreserved(c) <==> Listed(c)
  {
    InRow(c as char, UPPER, 'A');
    InRow(c as char, LOWER, 'a');
    InRow(c as char, DIGITS, '0');
  }

  /** `c` is the digit of `n`, in upper case. */
  predicate IsDigit(c: Byte, n: int) { 0 <= n < 16 && c as char == HEX_DIGITS[n] }

  lemma UpperHexIsADigit(c: Byte, n: int)
    requires 0 <= n < 16
    ensures IsDigit(c, n) <==> c == UpperHex(n)
  {
  }

  /** `c` and `d` are the digits of a byte that is not left as it is. */
  ghost predicate AreDigits(c: Byte, d: Byte, x: Byte) {
    IsDigit(c, x / 16) && IsDigit(d, x % 16) && !Unreserved(x)
  }

  /** Made of unreserved characters and of `%` with two upper-case digits, those of a
      byte that is not one. */
  ghost predicate InCanonicalForm(t: Bytes) {
    if t == [] then true
    else if Unreserved(t[0]) then InCanonicalForm(t[1..])
    else |t| > 2 && t[0] as char == '%' && (exists x :: AreDigits(t[1], t[2], x)) && InCanonicalForm(t[3..])
  }

  lemma DigitsAreRead(c: Byte, d: Byte, x: Byte)
    requires AreDigits(c, d, x)
    ensures EscapeByte(x) == [PERCENT, c, d] && HexPair(c, d) == Some(x)
  {
    UpperHexIsADigit(c, x / 16);
    UpperHexIsADigit(d, x % 16);
    HexRoundTrip(x);
  }

  /** Text in canonical form starts with some byte, escaped. */
  lemma CanonicalFirst(t: Bytes) returns (x: Byte, rest: Bytes)
    requires InCanonicalForm(t) && t != []
    ensures t == EscapeByte(x) + rest && |rest| < |t| && InCanonicalForm(rest)
  {
    if Unreserved(t[0]) {
      x, rest := t[0], t[1..];
      assert t == [x] + rest;
    } else {
      x :| AreDigits(t[1], t[2], x);
      rest := t[3..];
      DigitsAreRead(t[1], t[2], x);
      assert t == [PERCENT, t[1], t[2]] + rest;
    }
  }

  lemma {:induction false} CanonicalIsEscaped(t: Bytes)
    requires InCanonicalForm(t)
    ensures t == Escape(Decoded(t))
    decreases |t|
  {
    if t != [] {
      var x, rest := CanonicalFirst(t);
      CanonicalIsEscaped(rest);
      EscapedOn(x, rest);
    }
  }

  lemma EscapedOn(x: Byte, rest: Bytes)
    requires rest == Escape(Decoded(rest))
    ensures EscapeByte(x) + rest == Escape(Decoded(EscapeByte(x) + rest))
  {
    DecodeByte(x, rest);
    EscapeFirst(x, Decoded(rest));
  }

  lemma EscapeFirst(c: Byte, s: Bytes)
    ensures Escape([c] + s) == EscapeByte(c) + Escape(s)
  {
    assert ([c] + s)[1..] == s;
  }

  lemma {:induction false} EscapedIsCanonical(s: Bytes)
    ensures InCanonicalForm(Escape(s))
  {
    if s != [] {
      EscapedIsCanonical(s[1..]);
      CanonicalOn(s[0], Escape(s[1..]));
    }
  }

  lemma CanonicalOn(c: Byte, rest: Bytes)
    requires InCanonicalForm(rest)
    ensures InCanonicalForm(EscapeByte(c) + rest)
  {
    var t := EscapeByte(c) + rest;
    if Unreserved(c) {
      assert t[1..] == rest;
    } else {
      UpperHexIsADigit(UpperHex(c / 16), c / 16);
      UpperHexIsADigit(UpperHex(c % 16), c % 16);
      assert AreDigits(t[1], t[2], c) && t[3..] == rest;
    }
  }

  /** The escaped text is the one in canonical form that decodes to what was escaped. */
  lemma EscapeIsTheOnly(s: Bytes, t: Bytes)
    ensures t == Escape(s) <==> InCanonicalForm(t) && Decoded(t) == s
  {
    EscapedIsCanonical(s);
    DecodeUndoesEscape(s);
    if InCanonicalForm(t) { CanonicalIsEscaped(t); }
  }

  // ----- the order of byte strings ----------------------------------------

  predicate Below(x: Byte, y: Byte) { x < y }

  /** Go's order of strings: byte by byte, a prefix first. */
  predicate NotAfter(a: Bytes, b: Bytes) { Lexical(a, b, Below) }

  lemma StringsAreOrdered()
    ensures IsTotalOrder(NotAfter)
  {
    forall a, b ensures (NotAfter(a, b) || NotAfter(b, a)) && (NotAfter(a, b) && NotAfter(b, a) ==> a == b) {
      LexicalTotal(a, b, Below);
    }
    forall a, b, c | NotAfter(a, b) && NotAfter(b, c) ensures NotAfter(a, c) {
      LexicalTransitive(a, b, c, Below);
    }
  }

  datatype Pair = Pair(k: Bytes, v: Bytes)

  predicate PairNotAfter(a: Pair, b: Pair) {
    NotAfter(a.k, b.k) && (a.k == b.k ==> NotAfter(a.v, b.v))
  }

  lemma PairsAreOrdered()
    ensures IsTotalOrder(PairNotAfter)
  {
    StringsAreOrdered();
  }

  // ----- the canonical query ----------------------------------------------

  /** Go's `url.Values`. */
  type Values = map<Bytes, seq<Bytes>>

  /** How often `q` gives `k` the value `v`. */
  function Count(q: Values, p: Pair): nat {
    if p.k in q then multiset(q[p.k])[p.v] else 0
  }

  /** The same values for the same keys, in whatever order. */
  ghost predicate SameQuery(q: Values, q': Values) {
    forall p :: Count(q, p) == Count(q', p)
  }

  function RenderPair(p: Pair): Bytes { Escape(p.k) + [EQUALS] + Escape(p.v) }

  function RenderEach(ps: seq<Pair>): (parts: seq<Bytes>)
    ensures |parts| == |ps|
  {
    if ps == [] then [] else [RenderPair(ps[0])] + RenderEach(ps[1..])
  }

  function Render(ps: seq<Pair>): Bytes { Join(RenderEach(ps), AMPERSAND) }

  /** `ps` is `q`'s pairs, sorted by key and then by value. */
  ghost predicate Lists(ps: seq<Pair>, q: Values) {
    InOrder(ps, PairNotAfter) && forall p :: multiset(ps)[p] == Count(q, p)
  }

  function PairsFor(k: Bytes, vs: seq<Bytes>): (ps: seq<Pair>)
    ensures |ps| == |vs| && forall i :: 0 <= i < |vs| ==> ps[i] == Pair(k, vs[i])
  {
    if vs == [] then [] else [Pair(k, vs[0])] + PairsFor(k, vs[1..])
  }

  lemma {:induction false} PairsForCount(k: Bytes, vs: seq<Bytes>, p: Pair)
    ensures multiset(PairsFor(k, vs))[p] == if p.k == k then multiset(vs)[p.v] else 0
  {
    if vs != [] {
      PairsForCount(k, vs[1..], p);
      assert vs == [vs[0]] + vs[1..];
    }
  }

  lemma {:induction false} RenderJoined(a: seq<Pair>, b: seq<Pair>)
    ensures RenderEach(a + b) == RenderEach(a) + RenderEach(b)
  {
    if a == [] {
      assert a + b == b;
    } else {
      assert (a + b)[1..] == a[1..] + b;
      RenderJoined(a[1..], b);
    }
  }

  lemma RenderOneMore(k: Bytes, vs: seq<Bytes>, i: nat)
    requires i < |vs|
    ensures RenderEach(PairsFor(k, vs[..i + 1])) ==
      RenderEach(PairsFor(k, vs[..i])) + [Escape(k) + [EQUALS] + Escape(vs[i])]
  {
    var p := Pair(k, vs[i]);
    assert PairsFor(k, vs[..i + 1]) == PairsFor(k, vs[..i]) + [p];
    RenderJoined(PairsFor(k, vs[..i]), [p]);
    assert RenderEach([p]) == [RenderPair(p)];
  }

  lemma SortedValues(k: Bytes, vs: seq<Bytes>)
    ensures InOrder(PairsFor(k, Sort(vs, NotAfter)), PairNotAfter)
    ensures forall p :: multiset(PairsFor(k, Sort(vs, NotAfter)))[p] == if p.k == k then multiset(vs)[p.v] else 0
  {
    StringsAreOrdered();
    SortPutsInOrder(vs, NotAfter);
    forall p ensures multiset(PairsFor(k, Sort(vs, NotAfter)))[p] == if p.k == k then multiset(vs)[p.v] else 0 {
      PairsForCount(k, Sort(vs, NotAfter), p);
    }
  }

  /** One key's parts, its values sorted. */
  method PartsFor(k: Bytes, vs: seq<Bytes>) returns (parts: seq<Bytes>)
    ensures parts == RenderEach(PairsFor(k, Sort(vs, NotAfter)))
  {
    var values := Sort(vs, NotAfter);
    parts := [];
    for i := 0 to |values|
      invariant parts == RenderEach(PairsFor(k, values[..i]))
    {
      var ek := EscapeRFC3986(k);
      var ev := EscapeRFC3986(values[i]);
      parts := parts + [ek + [EQUALS] + ev];
      RenderOneMore(k, values, i);
    }
    assert values[..|values|] == values;
  }

  /** The query's pairs, each as often as it occurs, in order. */
  ghost predicate IsCanonical(q: Values, r: Bytes) {
    exists ps :: Lists(ps, q) && r == Render(ps)
  }

  /** `canonicalQuery` */
  method CanonicalQuery(q: Values) returns (r: Bytes)
    ensures IsCanonical(q, r)
  {
    var unsorted := KeysOf(q);
    var keys := Sort(unsorted, NotAfter);
    StringsAreOrdered();
    SortPutsInOrder(unsorted, NotAfter);
    SortKeepsElements(unsorted, NotAfter);
    var parts: seq<Bytes> := [];
    ghost var ps: seq<Pair> := [];
    for i := 0 to |keys|
      invariant parts == RenderEach(ps) && InOrder(ps, PairNotAfter)
      invariant forall p :: multiset(ps)[p] == if p.k in keys[..i] then Count(q, p) else 0
    {
      assert keys[i] in keys;
      var more := PartsFor(keys[i], q[keys[i]]);
      ghost var some := PairsFor(keys[i], Sort(q[keys[i]], NotAfter));
      SortedValues(keys[i], q[keys[i]]);
      RenderJoined(ps, some);
      KeysGoUp(keys, i, ps, some);
      CountsAdd(q, keys, i, ps, some);
      parts := parts + more;
      ps := ps + some;
    }
    assert keys[..|keys|] == keys;
    r := Join(parts, AMPERSAND);
    assert Lists(ps, q) && r == Render(ps);
  }

  lemma KeysGoUp(keys: seq<Bytes>, i: nat, ps: seq<Pair>, more: seq<Pair>)
    requires i < |keys| && Distinct(keys) && InOrder(keys, NotAfter)
    requires InOrder(ps, PairNotAfter) && InOrder(more, PairNotAfter)
    requires forall p: Pair :: p.k !in keys[..i] ==> multiset(ps)[p] == 0
    requires forall p: Pair :: p.k != keys[i] ==> multiset(more)[p] == 0
    ensures InOrder(ps + more, PairNotAfter)
  {
    forall a, b | 0 <= a < |ps| && 0 <= b < |more| ensures PairNotAfter(ps[a], more[b]) {
      assert ps[a] in multiset(ps) && more[b] in multiset(more);
      assert ps[a].k in keys[..i] && more[b].k == keys[i];
      var n :| 0 <= n < i && keys[n] == ps[a].k;
    }
  }

  lemma CountsAdd(q: Values, keys: seq<Bytes>, i: nat, ps: seq<Pair>, more: seq<Pair>)
    requires i < |keys| && Distinct(keys) && keys[i] in q
    requires forall p :: multiset(ps)[p] == if p.k in keys[..i] then Count(q, p) else 0
    requires forall p :: multiset(more)[p] == if p.k == keys[i] then multiset(q[keys[i]])[p.v] else 0
    ensures forall p :: multiset(ps + more)[p] == if p.k in keys[..i + 1] then Count(q, p) else 0
  {
    assert keys[..i + 1] == keys[..i] + [keys[i]];
    forall p ensures multiset(ps + more)[p] == if p.k in keys[..i + 1] then Count(q, p) else 0 {
      assert multiset(ps + more)[p] == multiset(ps)[p] + multiset(more)[p];
      assert p.k in keys[..i] ==> p.k != keys[i];
    }
  }

  /** Of two keys that first differ at some byte, the one with the smaller byte is
      listed first, and a key before those it begins; so are the values of one key. */
  lemma SmallerByteFirst(q: Values, ps: seq<Pair>, i: nat, j: nat, d: nat)
    requires Lists(ps, q) && i < j < |ps|
    ensures FirstDiffer(ps[i].k, ps[j].k, d) ==> ps[i].k[d] < ps[j].k[d]
    ensures ps[j].k <= ps[i].k ==> ps[i].k == ps[j].k
    ensures ps[i].k == ps[j].k ==> (FirstDiffer(ps[i].v, ps[j].v, d) ==> ps[i].v[d] < ps[j].v[d])
    ensures ps[i].k == ps[j].k ==> (ps[j].v <= ps[i].v ==> ps[i].v == ps[j].v)
  {
    assert PairNotAfter(ps[i], ps[j]);
    LexicalSays(ps[i].k, ps[j].k, Below, d);
    if ps[i].k == ps[j].k { LexicalSays(ps[i].v, ps[j].v, Below, d); }
  }

  lemma {:induction false} JoinOn(a: seq<Bytes>, b: seq<Bytes>, sep: Byte)
    requires a != [] && b != []
    ensures Join(a + b, sep) == Join(a, sep) + [sep] + Join(b, sep)
  {
    var first, rest := a[0], a[1..];
    assert a + b == [first] + (rest + b);
    JoinFirst(first, rest + b, sep);
    if rest == [] {
      assert rest + b == b && a == [first];
    } else {
      JoinOn(rest, b, sep);
      assert a == [first] + rest;
      JoinFirst(first, rest, sep);
    }
  }

  /** Pairs are written as `key=value`, with one `&` between each two. */
  lemma RenderIs(a: seq<Pair>, k: Bytes, v: Bytes, b: seq<Pair>)
    ensures Render([]) == []
    ensures Render([Pair(k, v)]) == Escape(k) + ['=' as int] + Escape(v)
    ensures a != [] && b != [] ==> Render(a + b) == Render(a) + ['&' as int] + Render(b)
  {
    RenderJoined(a, b);
    if a != [] && b != [] { JoinOn(RenderEach(a), RenderEach(b), AMPERSAND); }
  }

  // ----- reading a query --------------------------------------------------

  /** Go's `url.QueryUnescape`: `+` is a space and `%` must introduce two hex digits. */
  function QueryUnescape(s: Bytes): Option<Bytes> {
    if s == [] then Some([])
    else if s[0] == PERCENT then
      if |s| > 2 && HexDigit(s[1]).Some? && HexDigit(s[2]).Some? then
        var rest := QueryUnescape(s[3..]);
        if rest.None? then None else Some([16 * HexDigit(s[1]).value + HexDigit(s[2]).value] + rest.value)
      else None
    else
      var rest := QueryUnescape(s[1..]);
      if rest.None? then None else Some([if s[0] == PLUS then 32 else s[0]] + rest.value)
  }

  /** Up to the first `=` and after it, or all of it and nothing. */
  function Cut(s: Bytes): (Bytes, Bytes) {
    if s == [] then ([], [])
    else if s[0] == EQUALS then ([], s[1..])
    else var (a, b) := Cut(s[1..]); ([s[0]] + a, b)
  }

  /** One part of a query as Go's `url.ParseQuery` takes it: skipped when empty,
      when it holds a semicolon, or when it cannot be unescaped. */
  function ReadPart(s: Bytes): Option<Pair> {
    if s == [] || 59 in s then None else
    var (a, b) := Cut(s);
    var k, v := QueryUnescape(a), QueryUnescape(b);
    if k.None? || v.None? then None else Some(Pair(k.value, v.value))
  }

  function ReadParts(parts: seq<Bytes>): seq<Pair> {
    if parts == [] then [] else
    match ReadPart(parts[0])
    case Some(p) => [p] + ReadParts(parts[1..])
    case None => ReadParts(parts[1..])
  }

  /** The pairs of a query, in order. */
  function ReadQuery(s: Bytes): seq<Pair> { ReadParts(Split(s, AMPERSAND)) }

  /** The pairs gathered by key, as `url.ParseQuery` returns them. */
  function Gather(ps: seq<Pair>): Values {
    if ps == [] then map[] else
    var q, p := Gather(ps[..|ps| - 1]), ps[|ps| - 1];
    q[p.k := (if p.k in q then q[p.k] else []) + [p.v]]
  }

  lemma {:induction false} GatherCounts(ps: seq<Pair>, p: Pair)
    ensures Count(Gather(ps), p) == multiset(ps)[p]
  {
    if ps != [] {
      var before, last := ps[..|ps| - 1], ps[|ps| - 1];
      GatherCounts(before, p);
      assert ps == before + [last];
    }
  }

  lemma {:induction false} EscapedBytes(s: Bytes)
    ensures forall i :: 0 <= i < |Escape(s)| ==> Unreserved(Escape(s)[i]) || Escape(s)[i] == PERCENT
  {
    if s != [] { EscapedBytes(s[1..]); }
  }

  lemma {:induction false} UnescapeUndoesEscape(s: Bytes)
    ensures QueryUnescape(Escape(s)) == Some(s)
  {
    if s != [] {
      UnescapeUndoesEscape(s[1..]);
      UnescapeByte(s[0], Escape(s[1..]));
      assert [s[0]] + s[1..] == s;
    }
  }

  lemma UnescapeByte(c: Byte, rest: Bytes)
    requires QueryUnescape(rest).Some?
    ensures QueryUnescape(EscapeByte(c) + rest) == Some([c] + QueryUnescape(rest).value)
  {
    if Unreserved(c) {
      assert ([c] + rest)[1..] == rest;
    } else {
      HexDigitIs(c / 16);
      HexDigitIs(c % 16);
      UnescapeHex(UpperHex(c / 16), UpperHex(c % 16), rest);
    }
  }

  lemma HexDigitIs(n: int)
    requires 0 <= n < 16
    ensures HexDigit(UpperHex(n)) == Some(n)
  {
  }

  lemma UnescapeHex(a: Byte, b: Byte, rest: Bytes)
    requires QueryUnescape(rest).Some? && HexDigit(a).Some? && HexDigit(b).Some?
    ensures QueryUnescape([PERCENT, a, b] + rest) ==
      Some([16 * HexDigit(a).value + HexDigit(b).value] + QueryUnescape(rest).value)
  {
    assert ([PERCENT, a, b] + rest)[3..] == rest;
  }

  lemma {:induction false} CutAtEquals(a: Bytes, b: Bytes)
    requires EQUALS !in a
    ensures Cut(a + [EQUALS] + b) == (a, b)
  {
    var s := a + [EQUALS] + b;
    if a == [] {
      assert s[1..] == b;
    } else {
      assert s[1..] == a[1..] + [EQUALS] + b;
      CutAtEquals(a[1..], b);
      assert [a[0]] + a[1..] == a;
    }
  }

  lemma NotEscapedTo(s: Bytes, c: Byte)
    requires !Unreserved(c) && c != PERCENT
    ensures c !in Escape(s)
  {
    EscapedBytes(s);
  }

  lemma PartIs(a: Bytes, b: Bytes, p: Pair)
    requires EQUALS !in a && 59 !in a && 59 !in b
    requires QueryUnescape(a) == Some(p.k) && QueryUnescape(b) == Some(p.v)
    ensures ReadPart(a + [EQUALS] + b) == Some(p)
  {
    CutAtEquals(a, b);
  }

  lemma PartIsReadBack(p: Pair)
    ensures AMPERSAND !in RenderPair(p) && ReadPart(RenderPair(p)) == Some(p)
  {
    NotEscapedTo(p.k, EQUALS);
    NotEscapedTo(p.k, 59);
    NotEscapedTo(p.v, 59);
    NotEscapedTo(p.k, AMPERSAND);
    NotEscapedTo(p.v, AMPERSAND);
    UnescapeUndoesEscape(p.k);
    UnescapeUndoesEscape(p.v);
    PartIs(Escape(p.k), Escape(p.v), p);
  }

  lemma {:induction false} SplitPart(a: Bytes, rest: Bytes, sep: Byte)
    requires sep !in a
    ensures Split(a, sep) == [a]
    ensures Split(a + [sep] + rest, sep) == [a] + Split(rest, sep)
  {
    var s := a + [sep] + rest;
    if a == [] {
      assert s[1..] == rest;
    } else {
      assert s[1..] == a[1..] + [sep] + rest;
      SplitPart(a[1..], rest, sep);
      assert [a[0]] + a[1..] == a;
    }
  }

  /** Reading a rendered query gives back its pairs, in order. */
  lemma {:induction false} QueryIsReadBack(ps: seq<Pair>)
    ensures ReadQuery(Render(ps)) == ps
  {
    if ps == [] {
      assert Split([], AMPERSAND) == [[]];
      assert ReadParts([[]]) == ReadParts([[]][1..]) == [];
    } else {
      var p, rest := ps[0], ps[1..];
      PartIsReadBack(p);
      QueryIsReadBack(rest);
      SplitPart(RenderPair(p), Render(rest), AMPERSAND);
      assert RenderEach(ps)[1..] == RenderEach(rest);
      if rest == [] {
        assert ReadParts([RenderPair(p)]) == [p] + ReadParts([RenderPair(p)][1..]);
      } else {
        var parts := [RenderPair(p)] + Split(Render(rest), AMPERSAND);
        assert parts[1..] == Split(Render(rest), AMPERSAND);
      }
    }
  }

  // ----- what the canonical form means ------------------------------------

  /** Two queries have the same canonical form exactly when they give the same
      keys the same values, whatever the order of keys or values. */
  lemma CanonicalFormIsExact(q: Values, q': Values, r: Bytes, r': Bytes)
    requires IsCanonical(q, r) && IsCanonical(q', r')
    ensures r == r' <==> SameQuery(q, q')
  {
    var ps :| Lists(ps, q) && r == Render(ps);
    var ps' :| Lists(ps', q') && r' == Render(ps');
    ListedAlike(q, q', ps, ps');
  }

  lemma ListedAlike(q: Values, q': Values, ps: seq<Pair>, ps': seq<Pair>)
    requires Lists(ps, q) && Lists(ps', q')
    ensures Render(ps) == Render(ps') <==> SameQuery(q, q')
  {
    if SameQuery(q, q') {
      assert multiset(ps) == multiset(ps') by {
        forall p ensures multiset(ps)[p] == multiset(ps')[p] { assert Count(q, p) == Count(q', p); }
      }
      PairsAreOrdered();
      SortedIsUnique(ps, ps', PairNotAfter);
    }
    if Render(ps) == Render(ps') {
      QueryIsReadBack(ps);
      QueryIsReadBack(ps');
    }
  }

  /** The query sent is the query signed: reading the canonical form, as the
      request does before it is signed, and canonicalising again changes nothing. */
  lemma SentIsSigned(q: Values, sent: Bytes, signed: Bytes)
    requires IsCanonical(q, sent) && IsCanonical(Gather(ReadQuery(sent)), signed)
    ensures signed == sent
  {
    var ps :| Lists(ps, q) && sent == Render(ps);
    QueryIsReadBack(ps);
    forall p ensures Count(Gather(ps), p) == Count(q, p) { GatherCounts(ps, p); }
    CanonicalFormIsExact(q, Gather(ps), sent, signed);
  }
}
