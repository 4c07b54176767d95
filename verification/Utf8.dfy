/** UTF-8 as Rust's strings have it: a text's bytes, and the text of any bytes,
    each maximal run that is no character's start replaced by U+FFFD. */
module Utf8 {
  import opened Basics

  predicate Continues(b: Byte) { 0x80 <= b < 0xC0 }

  function Encode(c: char): (r: Bytes)
    ensures 1 <= |r| <= 4
  {
    var n := c as int;
    if n < 0x80 then [n]
    else if n < 0x800 then [0xC0 + n / 0x40, Low(n)]
    else if n < 0x1_0000 then [0xE0 + n / 0x1000, Low(n / 0x40), Low(n)]
    else [0xF0 + n / 0x4_0000, Low(n / 0x1000), Low(n / 0x40), Low(n)]
  }

  /** The last six bits, as a continuation byte. */
  function Low(n: nat): Byte { 0x80 + n % 0x40 }

  function BytesOf(text: string): Bytes {
    if text == "" then [] else Encode(text[0]) + BytesOf(text[1..])
  }

  const REPLACEMENT := '\U{FFFD}'

  /** The second byte a longer character may have after `b`. */
  predicate Second(b: Byte, c: Byte) {
    Continues(c) &&
    (b == 0xE0 ==> c >= 0xA0) && (b == 0xED ==> c < 0xA0) && (b == 0xF0 ==> c >= 0x90) && (b == 0xF4 ==> c < 0x90)
  }

  function Code2(a: int, b: int): int { (a - 0xC0) * 0x40 + (b - 0x80) }

  function Code3(a: int, b: int, c: int): int { (a - 0xE0) * 0x1000 + (b - 0x80) * 0x40 + (c - 0x80) }

  function Code4(a: int, b: int, c: int, d: int): int {
    (a - 0xF0) * 0x4_0000 + (b - 0x80) * 0x1000 + (c - 0x80) * 0x40 + (d - 0x80)
  }

  datatype Step = Step(c: char, n: nat)

  /** The first character of `s`, and how many bytes it takes. */
  function First(s: Bytes): (r: Step)
    requires s != []
    ensures 1 <= r.n <= |s|
  {
    if s[0] < 0x80 then Step(s[0] as char, 1)
    else if 0xC2 <= s[0] < 0xE0 then FirstOfTwo(s)
    else if 0xE0 <= s[0] < 0xF0 then FirstOfThree(s)
    else if 0xF0 <= s[0] < 0xF5 then FirstOfFour(s)
    else Step(REPLACEMENT, 1)
  }

  function FirstOfTwo(s: Bytes): (r: Step)
    requires s != [] && 0xC2 <= s[0] < 0xE0
    ensures 1 <= r.n <= |s|
  {
    if |s| < 2 || !Continues(s[1]) then Step(REPLACEMENT, 1)
    else Step(Code2(s[0], s[1]) as char, 2)
  }

  function FirstOfThree(s: Bytes): (r: Step)
    requires s != [] && 0xE0 <= s[0] < 0xF0
    ensures 1 <= r.n <= |s|
  {
    if |s| < 2 || !Second(s[0], s[1]) then Step(REPLACEMENT, 1)
    else if |s| < 3 || !Continues(s[2]) then Step(REPLACEMENT, 2)
    else Step(Code3(s[0], s[1], s[2]) as char, 3)
  }

  function FirstOfFour(s: Bytes): (r: Step)
    requires s != [] && 0xF0 <= s[0] < 0xF5
    ensures 1 <= r.n <= |s|
  {
    if |s| < 2 || !Second(s[0], s[1]) then Step(REPLACEMENT, 1)
    else if |s| < 3 || !Continues(s[2]) then Step(REPLACEMENT, 2)
    else if |s| < 4 || !Continues(s[3]) then Step(REPLACEMENT, 3)
    else Step(Code4(s[0], s[1], s[2], s[3]) as char, 4)
  }

  /** `String::from_utf8_lossy` */
  function Lossy(s: Bytes): string
    decreases |s|
  {
    if s == [] then "" else [First(s).c] + Lossy(s[First(s).n..])
  }

  lemma TwoBytes(c: char, rest: Bytes)
    requires 0x80 <= c as int < 0x800
    ensures First(Encode(c) + rest) == Step(c, 2)
  {
    var s, n := Encode(c) + rest, c as int;
    assert s[0] == 0xC0 + n / 0x40 && s[1] == Low(n);
    assert Code2(s[0], s[1]) == n;
  }

  lemma ThreeBytes(c: char, rest: Bytes)
    requires 0x800 <= c as int < 0x1_0000
    ensures First(Encode(c) + rest) == Step(c, 3)
  {
    var s, n := Encode(c) + rest, c as int;
    assert s[0] == 0xE0 + n / 0x1000 && s[1] == Low(n / 0x40) && s[2] == Low(n);
    assert n / 0x40 == 0x40 * (n / 0x1000) + n / 0x40 % 0x40;
    assert Code3(s[0], s[1], s[2]) == n;
  }

  lemma FourBytes(c: char, rest: Bytes)
    requires 0x1_0000 <= c as int
    ensures First(Encode(c) + rest) == Step(c, 4)
  {
    var s, n := Encode(c) + rest, c as int;
    assert s[0] == 0xF0 + n / 0x4_0000 && s[1] == Low(n / 0x1000) && s[2] == Low(n / 0x40) && s[3] == Low(n);
    assert n / 0x1000 == 0x40 * (n / 0x4_0000) + n / 0x1000 % 0x40;
    assert n / 0x40 == 0x40 * (n / 0x1000) + n / 0x40 % 0x40;
    assert Code4(s[0], s[1], s[2], s[3]) == n;
  }

  lemma EncodedIsFirst(c: char, rest: Bytes)
    ensures First(Encode(c) + rest) == Step(c, |Encode(c)|)
  {
    var n := c as int;
    if n < 0x80 {
    } else if n < 0x800 {
      TwoBytes(c, rest);
    } else if n < 0x1_0000 {
      ThreeBytes(c, rest);
    } else {
      FourBytes(c, rest);
    }
  }

  /** A text's bytes read back as the text: nothing in them is replaced. */
  lemma {:induction false} BytesReadBack(text: string)
    ensures Lossy(BytesOf(text)) == text
  {
    if text != "" {
      var e, rest := Encode(text[0]), BytesOf(text[1..]);
      EncodedIsFirst(text[0], rest);
      assert (e + rest)[|e|..] == rest;
      BytesReadBack(text[1..]);
      assert [text[0]] + text[1..] == text;
    }
  }
}
