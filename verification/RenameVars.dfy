/** The upgrade's renaming of `OBJECTIO_` variables in an `Environment=` value. */
module RenameVars {
  import opened Basics

  const OLD_VAR := "OBJECTIO_"
  const NEW_VAR := "IOLAKE_"

  predicate Starts(s: string) { |s| >= 9 && s[..9] == OLD_VAR }

  /** The first occurrence of `OBJECTIO_`, or -1. */
  function Find(s: string): (i: int)
    ensures -1 <= i && (i >= 0 ==> i + 9 <= |s|)
  {
    if |s| < 9 then -1
    else if Starts(s) then 0
    else var i := Find(s[1..]); if i < 0 then -1 else i + 1
  }

  /** What an occurrence after `before` becomes. */
  function NameAfter(before: Option<char>): string {
    if before.None? || Opens(before.value) then NEW_VAR else OLD_VAR
  }

  predicate Opens(c: char) { c == ' ' || c == '"' || c == '\'' }

  /** `rename_vars` */
  method Rename(value: string) returns (out: string)
    ensures out == Scan(value, None)
  {
    out := "";
    var rest := value;
    var i := Find(rest);
    while i >= 0
      invariant i == Find(rest)
      invariant Scan(value, None) == out + Scan(rest, None)
      decreases |rest|
    {
      ScanOn(out, rest);
      var atName := i == 0 || Opens(rest[i - 1]);
      out := out + rest[..i] + (if atName then NEW_VAR else OLD_VAR);
      rest := rest[i + 9..];
      i := Find(rest);
    }
    ScanToFind(rest, None);
    out := out + rest;
  }

  /** The renaming character by character: an occurrence is renamed when nothing
      the scan remembers stands before it, or a space or a quote does. The scan
      forgets what stands before it at each occurrence. */
  function Scan(s: string, before: Option<char>): string {
    if s == "" then ""
    else if Starts(s) then NameAfter(before) + Scan(s[9..], None)
    else [s[0]] + Scan(s[1..], Some(s[0]))
  }

  lemma {:induction false} ScanToFind(s: string, before: Option<char>)
    ensures Find(s) < 0 ==> Scan(s, before) == s
    ensures var i := Find(s);
      i >= 0 ==>
        Scan(s, before) == s[..i] + NameAfter(if i == 0 then before else Some(s[i - 1])) + Scan(s[i + 9..], None)
  {
    if Starts(s) {
      assert s[..0] + NameAfter(before) == NameAfter(before);
    } else if |s| < 9 {
      ShortStays(s, before);
    } else {
      ScanToFind(s[1..], Some(s[0]));
      Shifted(s, Find(s[1..]));
    }
  }

  lemma ScanOn(out: string, rest: string)
    requires Find(rest) >= 0
    ensures var i := Find(rest);
      out + Scan(rest, None) ==
      out + rest[..i] + (if i == 0 || Opens(rest[i - 1]) then NEW_VAR else OLD_VAR) + Scan(rest[i + 9..], None)
  {
    ScanToFind(rest, None);
    var i := Find(rest);
    var name := NameAfter(if i == 0 then None else Some(rest[i - 1]));
    Regroup(out, rest[..i], name);
    Regroup(out, rest[..i] + name, Scan(rest[i + 9..], None));
  }

  lemma Shifted(s: string, i: int)
    requires s != "" && -1 <= i && (i >= 0 ==> i + 9 < |s|)
    ensures [s[0]] + s[1..] == s
    ensures i >= 0 ==> s[..i + 1] == [s[0]] + s[1..][..i] && s[1..][i + 9..] == s[i + 10..]
    ensures i > 0 ==> s[1..][i - 1] == s[i]
    ensures i >= 0 ==> forall x: string, y: string :: [s[0]] + (s[1..][..i] + x + y) == s[..i + 1] + x + y
  {
    if i >= 0 {
      forall x: string, y: string ensures [s[0]] + (s[1..][..i] + x + y) == s[..i + 1] + x + y {
        assert s[..i + 1] == [s[0]] + s[1..][..i];
      }
    }
  }

  lemma {:induction false} ShortStays(s: string, before: Option<char>)
    requires |s| < 9
    ensures Scan(s, before) == s
  {
    if s != "" {
      ShortStays(s[1..], Some(s[0]));
      assert [s[0]] + s[1..] == s;
    }
  }

  // ----- what renaming should do ------------------------------------------

  /** Exactly the occurrences at the start, or after a space or a quote, renamed;
      all other text kept. */
  function Intended(s: string, before: Option<char>): string {
    if s == "" then ""
    else if Starts(s) then
      var atName := before.None? || before.value == ' ' || before.value == '"' || before.value == '\'';
      (if atName then "IOLAKE_" else "OBJECTIO_") + Intended(s[9..], Some('_'))
    else [s[0]] + Intended(s[1..], Some(s[0]))
  }

  /** Two occurrences with nothing between them. */
  predicate BackToBack(s: string) {
    |s| >= 18 && ((Starts(s) && Starts(s[9..])) || BackToBack(s[1..]))
  }

  lemma {:induction false} NotIn(s: string, k: nat)
    requires !BackToBack(s) && k <= |s|
    ensures !BackToBack(s[k..])
  {
    if k > 0 && |s| >= 18 {
      NotIn(s[1..], k - 1);
      assert s[1..][k - 1..] == s[k..];
    }
  }

  lemma {:induction false} AgreeApart(s: string, before: Option<char>, before': Option<char>)
    requires !BackToBack(s) && (before == before' || !Starts(s))
    ensures Scan(s, before) == Intended(s, before')
  {
    if s == "" {
    } else if Starts(s) {
      NotIn(s, 9);
      AgreeApart(s[9..], None, Some('_'));
    } else {
      NotIn(s, 1);
      AgreeApart(s[1..], Some(s[0]), Some(s[0]));
    }
  }

  /** Back-to-back occurrences start at `s` or further on, past an occurrence
      that starts `s`. */
  lemma {:induction false} BackToBackOn(s: string)
    requires BackToBack(s)
    ensures Starts(s) ==> Starts(s[9..]) || BackToBack(s[9..])
    ensures !Starts(s) ==> BackToBack(s[1..])
  {
    if Starts(s) && !Starts(s[9..]) {
      PastOne(s, 1);
    }
  }

  lemma NotInside(s: string, k: nat)
    requires Starts(s) && 1 <= k < 9
    ensures !Starts(s[k..])
  {
    var t := s[k..];
    assert t[0] == s[..9][k];
    if k < 8 && |t| > 1 { assert t[1] == s[..9][k + 1]; }
    NotHere(t, if k == 7 then 1 else 0);
  }

  /** An occurrence overlaps no other, so one that starts `s` holds no pair. */
  lemma {:induction false} PastOne(s: string, k: nat)
    requires Starts(s) && 1 <= k <= 9 && BackToBack(s[k..])
    ensures BackToBack(s[9..])
    decreases 9 - k
  {
    if k < 9 {
      NotInside(s, k);
      assert s[k..][1..] == s[k + 1..];
      PastOne(s, k + 1);
    }
  }

  lemma {:induction false} ScanIsShorter(s: string, before: Option<char>, before': Option<char>)
    requires before == before' || before.None?
    ensures |Scan(s, before)| <= |Intended(s, before')|
    ensures BackToBack(s) || (Starts(s) && before.None? && before' == Some('_')) ==>
      |Scan(s, before)| < |Intended(s, before')|
  {
    if s == "" {
    } else if Starts(s) {
      ScanIsShorter(s[9..], None, Some('_'));
      if BackToBack(s) { BackToBackOn(s); }
    } else {
      ScanIsShorter(s[1..], Some(s[0]), Some(s[0]));
      if BackToBack(s) { BackToBackOn(s); }
    }
  }

  /** Renaming does what it should on exactly the values with no two occurrences
      back to back: the code takes the second for one at the start. */
  lemma RenamesAsIntended(value: string)
    ensures Scan(value, None) == Intended(value, None) <==> !BackToBack(value)
  {
    if BackToBack(value) {
      ScanIsShorter(value, None, None);
    } else {
      AgreeApart(value, None, None);
    }
  }

  // ----- renaming twice ---------------------------------------------------

  lemma NotHere(s: string, k: nat)
    requires k < 9 && k < |s| && s[k] != OLD_VAR[k]
    ensures !Starts(s)
  {
    if |s| >= 9 { assert s[..9][k] == s[k]; }
  }

  lemma ScanStep(c: char, s: string, before: Option<char>)
    requires !Starts([c] + s)
    ensures Scan([c] + s, before) == [c] + Scan(s, Some(c))
  {
    assert ([c] + s)[1..] == s;
  }

  lemma ScanPlain(c: char, s: string, before: Option<char>)
    requires c != 'O'
    ensures Scan([c] + s, before) == [c] + Scan(s, Some(c))
  {
    NotHere([c] + s, 0);
    ScanStep(c, s, before);
  }

  lemma ScanLake(s: string, before: Option<char>)
    ensures Scan("LAKE_" + s, before) == "LAKE_" + Scan(s, Some('_'))
  {
    var s1 := ['_'] + s;
    var s2 := ['E'] + s1;
    var s3 := ['K'] + s2;
    var s4 := ['A'] + s3;
    ScanPlain('_', s, Some('E'));
    ScanPlain('E', s1, Some('K'));
    ScanPlain('K', s2, Some('A'));
    ScanPlain('A', s3, Some('L'));
    ScanPlain('L', s4, before);
    Lake(s);
    Lake(Scan(s, Some('_')));
  }

  lemma Lake(s: string)
    ensures "LAKE_" + s == ['L'] + (['A'] + (['K'] + (['E'] + (['_'] + s))))
  {
  }

  /** No occurrence starts inside a new name. */
  lemma ScanNewName(s: string, before: Option<char>)
    ensures Scan(NEW_VAR + s, before) == NEW_VAR + Scan(s, Some('_'))
  {
    var t := "LAKE_" + s;
    ScanLake(s, Some('O'));
    NotHere(['O'] + t, 1);
    NotHere(['I'] + (['O'] + t), 0);
    assert NEW_VAR + s == ['I'] + (['O'] + t);
    ScanStep('O', t, Some('I'));
    ScanStep('I', ['O'] + t, before);
    assert NEW_VAR + Scan(s, Some('_')) == ['I'] + (['O'] + ("LAKE_" + Scan(s, Some('_'))));
  }

  lemma NoBorder(s: string, k: nat)
    requires 0 < k < 9 && Starts(s)
    ensures s[..9 - k] != OLD_VAR[k..]
  {
    assert s[0] == s[..9][0] && s[1] == s[..9][1];
    var t := s[..9 - k];
    assert t[0] == s[0] && (k < 8 ==> t[1] == s[1]);
  }

  /** A later part of the old name cannot start where the whole one does. */
  lemma NotWhole(s: string, before: Option<char>, k: nat)
    requires 0 < k < 9 && Starts(s) && before.Some? && !Opens(before.value)
    requires |Scan(s, before)| >= 9 - k
    ensures Scan(s, before)[..9 - k] != OLD_VAR[k..]
  {
    var out := Scan(s, before);
    assert out[..9] == OLD_VAR;
    NoBorder(out, k);
  }

  /** The rest of an occurrence in a scan's output was there in its input. */
  lemma {:induction false} PrefixKept(s: string, before: Option<char>, k: nat)
    requires k <= 9 && |Scan(s, before)| >= 9 - k && Scan(s, before)[..9 - k] == OLD_VAR[k..]
    requires k > 0 ==> before.Some? && !Opens(before.value)
    ensures |s| >= 9 - k && s[..9 - k] == OLD_VAR[k..]
    decreases 9 - k
  {
    if k == 9 {
    } else if Starts(s) {
      if k > 0 { NotWhole(s, before, k); }
    } else {
      var out := Scan(s, before);
      FirstKept(s, before, out, k);
      PrefixKept(s[1..], Some(s[0]), k + 1);
      assert s[..9 - k] == [s[0]] + s[1..][..9 - (k + 1)];
    }
  }

  /** The next character is the old name's, and opens nothing. */
  lemma FirstKept(s: string, before: Option<char>, out: string, k: nat)
    requires k < 9 && !Starts(s) && out == Scan(s, before) && |out| >= 9 - k && out[..9 - k] == OLD_VAR[k..]
    ensures s != "" && s[0] == OLD_VAR[k] && !Opens(s[0]) && OLD_VAR[k..] == [s[0]] + OLD_VAR[k + 1..]
    ensures |Scan(s[1..], Some(s[0]))| >= 9 - (k + 1) && Scan(s[1..], Some(s[0]))[..9 - (k + 1)] == OLD_VAR[k + 1..]
  {
    assert out == [s[0]] + Scan(s[1..], Some(s[0]));
    Unshift(s[0], Scan(s[1..], Some(s[0])), OLD_VAR, k);
    OldNameOpensNothing(k);
  }

  lemma Unshift(c: char, rest: string, name: string, k: nat)
    requires k < |name| && 1 + |rest| >= |name| - k && ([c] + rest)[..|name| - k] == name[k..]
    ensures c == name[k] && name[k..] == [c] + name[k + 1..] && rest[..|name| - k - 1] == name[k + 1..]
  {
    assert name[k..][0] == c;
    assert ([c] + rest)[..|name| - k] == [c] + rest[..|name| - k - 1];
    assert name[k..][1..] == name[k + 1..];
  }

  lemma OldNameOpensNothing(k: nat)
    requires k < 9
    ensures !Opens(OLD_VAR[k])
  {
    assert ' ' !in OLD_VAR && '"' !in OLD_VAR && '\'' !in OLD_VAR;
    assert OLD_VAR[k] in OLD_VAR;
  }

  lemma OccurrenceWasThere(s: string, before: Option<char>)
    requires Starts(Scan(s, before))
    ensures Starts(s)
  {
    PrefixKept(s, before, 0);
  }

  lemma BeforeMattersAtAStart(s: string, before: Option<char>, before': Option<char>)
    requires !Starts(s)
    ensures Scan(s, before) == Scan(s, before')
  {
  }

  lemma {:induction false} ScanTwice(s: string, before: Option<char>)
    ensures Scan(Scan(s, before), before) == Scan(s, before)
    ensures before.None? ==> !Starts(Scan(s, before))
  {
    if s == "" {
    } else if Starts(s) {
      var t := Scan(s[9..], None);
      ScanTwice(s[9..], None);
      if before.None? || Opens(before.value) {
        ScanNewName(t, before);
        BeforeMattersAtAStart(t, None, Some('_'));
        NotHere(NEW_VAR + t, 0);
      } else {
        var out := OLD_VAR + t;
        assert out[..9] == OLD_VAR && out[9..] == t;
      }
    } else {
      ScanTwice(s[1..], Some(s[0]));
      if Starts(Scan(s, before)) { OccurrenceWasThere(s, before); }
      ScanStep(s[0], Scan(s[1..], Some(s[0])), before);
    }
  }

  /** A second pass changes nothing, on any value: what is left starts no name,
      and a new name makes no occurrence. */
  lemma RenamingTwiceIsOnce(value: string)
    ensures Scan(Scan(value, None), None) == Scan(value, None)
  {
    ScanTwice(value, None);
  }
}
