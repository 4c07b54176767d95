/** Percentiles of a histogram between two scrapes, as the console computes them,
    and the dashboard's check that the histogram can give one.

    Numbers are reals. The calls modelled are the dashboard's: one group, no
    label matcher. */
module Quantile {
  import opened Basics
  import opened Sorting
  import Exposition

  type Sample = Exposition.Sample

  /** A bucket's upper bound. */
  datatype Bound = Finite(r: real) | Infinite

  datatype Bucket = Bucket(le: Bound, cum: real)

  /** What an `le` text says, unless it is not a number. */
  type Reader = string -> Option<Bound>

  predicate NotAbove(a: Bound, b: Bound) { b.Infinite? || (a.Finite? && a.r <= b.r) }

  predicate Under(a: Bound, b: Bound) { NotAbove(a, b) && a != b }

  // ----- adding samples up ------------------------------------------------

  /** The `le` label, empty when there is none. */
  function LeOf(s: Sample): string { if "le" in s.labels then s.labels["le"] else "" }

  /** The sum of `name`'s samples with this `le`. */
  function Total(ss: seq<Sample>, name: string, le: string): real {
    if ss == [] then 0.0 else
    var s := ss[|ss| - 1];
    Total(ss[..|ss| - 1], name, le) + (if s.name == name && LeOf(s) == le then s.value else 0.0)
  }

  ghost predicate Occurs(ss: seq<Sample>, name: string, le: string) {
    exists i :: 0 <= i < |ss| && ss[i].name == name && LeOf(ss[i]) == le
  }

  /** `groupSum` by `le`. */
  method GroupSum(ss: seq<Sample>, name: string) returns (out: map<string, real>)
    ensures forall le :: le in out <==> Occurs(ss, name, le)
    ensures forall le :: le in out ==> out[le] == Total(ss, name, le)
  {
    out := map[];
    for i := 0 to |ss|
      invariant forall le :: SummedAt(out, ss[..i], name, le)
    {
      var s := ss[i];
      ghost var was := out;
      if s.name == name {
        var k := LeOf(s);
        out := out[k := (if k in out then out[k] else 0.0) + s.value];
      }
      ghost var next := ss[..i + 1];
      assert ss[..i] + [s] == next;
      forall le ensures SummedAt(out, next, name, le) {
        assert SummedAt(was, ss[..i], name, le);
        SummedOn(was, out, ss[..i], s, name, le);
      }
    }
    assert ss[..|ss|] == ss;
    forall le ensures (le in out <==> Occurs(ss, name, le)) && (le in out ==> out[le] == Total(ss, name, le)) {
      assert SummedAt(out, ss, name, le);
    }
  }

  /** `out` has the sum for `le`, or nothing where there is none. */
  ghost predicate SummedAt(out: map<string, real>, ss: seq<Sample>, name: string, le: string) {
    (le in out <==> Occurs(ss, name, le)) && Total(ss, name, le) == if le in out then out[le] else 0.0
  }

  lemma SummedOn(was: map<string, real>, out: map<string, real>, ss: seq<Sample>, s: Sample, name: string, le: string)
    requires SummedAt(was, ss, name, le)
    requires out ==
      if s.name == name then was[LeOf(s) := (if LeOf(s) in was then was[LeOf(s)] else 0.0) + s.value] else was
    ensures SummedAt(out, ss + [s], name, le)
  {
    OccursOn(ss, s, name, le);
    assert (ss + [s])[..|ss|] == ss;
  }

  lemma OccursOn(ss: seq<Sample>, s: Sample, name: string, le: string)
    ensures Occurs(ss + [s], name, le) <==> Occurs(ss, name, le) || (s.name == name && LeOf(s) == le)
  {
    var all := ss + [s];
    assert all[|ss|] == s && forall i :: 0 <= i < |ss| ==> all[i] == ss[i];
  }

  /** The sum of `name`'s samples whose `le` reads as bound `b`. */
  function TotalAt(ss: seq<Sample>, name: string, b: Bound, read: Reader): real {
    if ss == [] then 0.0 else
    var s := ss[|ss| - 1];
    TotalAt(ss[..|ss| - 1], name, b, read) + (if s.name == name && read(LeOf(s)) == Some(b) then s.value else 0.0)
  }

  ghost predicate BoundOccurs(ss: seq<Sample>, name: string, b: Bound, read: Reader) {
    exists i :: 0 <= i < |ss| && ss[i].name == name && read(LeOf(ss[i])) == Some(b)
  }

  /** Both are sums: of one sample its value, where its name and its `le` label
      match, and of two lists the sum of theirs. */
  lemma {:induction false} TotalsAdd(
    a: seq<Sample>, s: Sample, b: seq<Sample>, name: string, le: string, at: Bound, read: Reader)
    requires "le" in s.labels
    ensures Total([s], name, le) == if s.name == name && s.labels["le"] == le then s.value else 0.0
    ensures TotalAt([s], name, at, read) == if s.name == name && read(s.labels["le"]) == Some(at) then s.value else 0.0
    ensures Total(a + b, name, le) == Total(a, name, le) + Total(b, name, le)
    ensures TotalAt(a + b, name, at, read) == TotalAt(a, name, at, read) + TotalAt(b, name, at, read)
  {
    assert [s][..0] == [];
    if b == [] {
      assert a + b == a;
    } else {
      assert (a + b)[..|a + b| - 1] == a + b[..|b| - 1];
      TotalsAdd(a, s, b[..|b| - 1], name, le, at, read);
    }
  }

  function Signed(plus: bool, x: real): real { if plus then x else -x }

  function AtOr0(m: map<Bound, real>, b: Bound): real { if b in m then m[b] else 0.0 }

  /** `m` has what `m0` had at `b`, and the samples' sum more or less. */
  ghost predicate AddedAt(
    m0: map<Bound, real>, m: map<Bound, real>, ss: seq<Sample>, name: string, plus: bool, read: Reader, b: Bound)
  {
    && (b in m <==> b in m0 || BoundOccurs(ss, name, b, read))
    && AtOr0(m, b) == AtOr0(m0, b) + Signed(plus, TotalAt(ss, name, b, read))
  }

  /** `quantile`'s inner `add`: samples added to, or taken from, their bound. */
  method Add(m0: map<Bound, real>, ss: seq<Sample>, name: string, plus: bool, read: Reader)
    returns (m: map<Bound, real>)
    ensures forall b :: b in m <==> b in m0 || BoundOccurs(ss, name, b, read)
    ensures forall b :: AtOr0(m, b) == AtOr0(m0, b) + Signed(plus, TotalAt(ss, name, b, read))
  {
    m := m0;
    for i := 0 to |ss|
      invariant forall b :: AddedAt(m0, m, ss[..i], name, plus, read, b)
    {
      var s := ss[i];
      ghost var was, next := m, ss[..i + 1];
      if s.name == name && read(LeOf(s)).Some? {
        var b := read(LeOf(s)).value;
        m := m[b := AtOr0(m, b) + Signed(plus, s.value)];
      }
      assert ss[..i] + [s] == next;
      forall b ensures AddedAt(m0, m, next, name, plus, read, b) {
        assert AddedAt(m0, was, ss[..i], name, plus, read, b);
        AddedOn(m0, was, m, ss[..i], s, name, plus, read, b);
      }
    }
    assert ss[..|ss|] == ss;
    forall b
      ensures b in m <==> b in m0 || BoundOccurs(ss, name, b, read)
      ensures AtOr0(m, b) == AtOr0(m0, b) + Signed(plus, TotalAt(ss, name, b, read))
    {
      assert AddedAt(m0, m, ss, name, plus, read, b);
    }
  }

  lemma AddedOn(
    m0: map<Bound, real>, was: map<Bound, real>, m: map<Bound, real>, ss: seq<Sample>, s: Sample, name: string,
    plus: bool, read: Reader, b: Bound)
    requires AddedAt(m0, was, ss, name, plus, read, b)
    requires m ==
      if s.name == name && read(LeOf(s)).Some?
      then was[read(LeOf(s)).value := AtOr0(was, read(LeOf(s)).value) + Signed(plus, s.value)] else was
    ensures AddedAt(m0, m, ss + [s], name, plus, read, b)
  {
    BoundOccursOn(ss, s, name, b, read);
    assert (ss + [s])[..|ss|] == ss;
  }

  lemma BoundOccursOn(ss: seq<Sample>, s: Sample, name: string, b: Bound, read: Reader)
    ensures BoundOccurs(ss + [s], name, b, read) <==>
      BoundOccurs(ss, name, b, read) || (s.name == name && read(LeOf(s)) == Some(b))
  {
    var all := ss + [s];
    assert all[|ss|] == s && forall i :: 0 <= i < |ss| ==> all[i] == ss[i];
  }

  // ----- buckets in order -------------------------------------------------

  /** Bounds strictly rising, so only the last can be infinite. */
  ghost predicate Rising(bs: seq<Bucket>) {
    forall i, j :: 0 <= i < j < |bs| ==> Under(bs[i].le, bs[j].le)
  }

  /** `bs` is `m` in order of its bounds. */
  ghost predicate IsOrdered(m: map<Bound, real>, bs: seq<Bucket>) {
    && Rising(bs)
    && (forall i :: 0 <= i < |bs| ==> bs[i].le in m && bs[i].cum == m[bs[i].le])
    && (forall b :: b in m ==> exists i :: 0 <= i < |bs| && bs[i].le == b)
  }

  lemma BoundsAreOrdered()
    ensures IsTotalOrder(NotAbove)
  {
  }

  function BoundsOf(bs: seq<Bucket>): (x: seq<Bound>)
    ensures |x| == |bs| && forall i :: 0 <= i < |bs| ==> x[i] == bs[i].le
  {
    seq(|bs|, i requires 0 <= i < |bs| => bs[i].le)
  }

  /** A map's entries sorted by bound, from whatever order they come in. */
  method InBoundOrder(m: map<Bound, real>) returns (bs: seq<Bucket>)
    ensures IsOrdered(m, bs)
  {
    var keys := KeysOf(m);
    var sorted := Sort(keys, NotAbove);
    SortKeepsElements(keys, NotAbove);
    BoundsAreOrdered();
    SortPutsInOrder(keys, NotAbove);
    bs := seq(|sorted|, i requires 0 <= i < |sorted| && sorted[i] in m => Bucket(sorted[i], m[sorted[i]]));
    forall b | b in m ensures exists i :: 0 <= i < |bs| && bs[i].le == b {
      var i :| 0 <= i < |sorted| && sorted[i] == b;
      assert bs[i].le == b;
    }
  }

  // ----- the quantile -----------------------------------------------------

  function LowerOf(bs: seq<Bucket>, i: nat): real
    requires i <= |bs|
  {
    if i == 0 || bs[i - 1].le.Infinite? then 0.0 else bs[i - 1].le.r
  }

  function BelowOf(bs: seq<Bucket>, i: nat): real
    requires i <= |bs|
  {
    if i == 0 then 0.0 else bs[i - 1].cum
  }

  /** `w` times `n` over `c`. */
  function Share(w: real, n: real, c: real): real
    requires c != 0.0
  {
    (w * n) / c
  }

  /** Where rank `rank` falls in bucket `i`. */
  function Inside(bs: seq<Bucket>, i: nat, rank: real): real
    requires i < |bs|
  {
    var lower, inBucket := LowerOf(bs, i), bs[i].cum - BelowOf(bs, i);
    if bs[i].le.Infinite? then lower
    else if inBucket > 0.0 then lower + Share(bs[i].le.r - lower, rank - BelowOf(bs, i), inBucket)
    else bs[i].le.r
  }

  function ScanFrom(bs: seq<Bucket>, i: nat, rank: real): Option<real>
    requires i <= |bs|
    decreases |bs| - i
  {
    if i == |bs| then None
    else if bs[i].cum >= rank then Some(Inside(bs, i, rank))
    else ScanFrom(bs, i + 1, rank)
  }

  function QuantileOf(bs: seq<Bucket>, q: real): Option<real> {
    if bs == [] || bs[|bs| - 1].cum <= 0.0 then None
    else ScanFrom(bs, 0, q * bs[|bs| - 1].cum)
  }

  method Scan(bs: seq<Bucket>, q: real) returns (r: Option<real>)
    ensures r == QuantileOf(bs, q)
  {
    var count := if bs == [] then 0.0 else bs[|bs| - 1].cum;
    if count <= 0.0 {
      return None;
    }
    var rank := q * count;
    var lower, below := 0.0, 0.0;
    for i := 0 to |bs|
      invariant lower == LowerOf(bs, i) && below == BelowOf(bs, i)
      invariant ScanFrom(bs, 0, rank) == ScanFrom(bs, i, rank)
    {
      var Bucket(le, cum) := bs[i];
      if cum >= rank {
        if le.Infinite? {
          return Some(lower);
        }
        var inBucket := cum - below;
        return Some(if inBucket > 0.0 then lower + Share(le.r - lower, rank - below, inBucket) else le.r);
      }
      lower := if le.Finite? then le.r else 0.0;
      below := cum;
    }
    return None;
  }

  /** The increase of every bucket between the scrapes, in order of bound. */
  ghost predicate IsHistogram(cur: seq<Sample>, prev: seq<Sample>, name: string, read: Reader, bs: seq<Bucket>) {
    && Rising(bs)
    && (forall i :: 0 <= i < |bs| ==> BoundOccurs(cur, name, bs[i].le, read) || BoundOccurs(prev, name, bs[i].le, read))
    && (forall i :: 0 <= i < |bs| ==>
          bs[i].cum == TotalAt(cur, name, bs[i].le, read) - TotalAt(prev, name, bs[i].le, read))
    && (forall b :: BoundOccurs(cur, name, b, read) || BoundOccurs(prev, name, b, read) ==>
          exists i :: 0 <= i < |bs| && bs[i].le == b)
  }

  /** `quantile` of one group. */
  method QuantileBetween(cur: seq<Sample>, prev: seq<Sample>, name: string, q: real, read: Reader)
    returns (r: Option<real>)
    ensures exists bs :: IsHistogram(cur, prev, name, read, bs) && r == QuantileOf(bs, q)
  {
    var added := Add(map[], cur, name, true, read);
    var m := Add(added, prev, name, false, read);
    var bs := InBoundOrder(m);
    r := Scan(bs, q);
    forall i | 0 <= i < |bs|
      ensures bs[i].cum == TotalAt(cur, name, bs[i].le, read) - TotalAt(prev, name, bs[i].le, read)
    {
      assert bs[i].cum == AtOr0(m, bs[i].le);
      assert AtOr0(added, bs[i].le) == AtOr0(map[], bs[i].le) + Signed(true, TotalAt(cur, name, bs[i].le, read));
    }
    assert IsHistogram(cur, prev, name, read, bs);
  }

  // ----- the distribution it inverts --------------------------------------

  /** The straight line from (`lower`, `below`) to (`le`, `cum`). */
  function Line(lower: real, below: real, le: real, cum: real, x: real): real
    requires lower != le
  {
    below + Share(cum - below, x - lower, le - lower)
  }

  /** Bounds are positive, as a duration's are. */
  ghost predicate Positive(bs: seq<Bucket>) {
    forall i :: 0 <= i < |bs| && bs[i].le.Finite? ==> bs[i].le.r > 0.0
  }

  lemma LowerIsLower(bs: seq<Bucket>, i: nat)
    requires Rising(bs) && Positive(bs) && i < |bs|
    ensures LowerOf(bs, i) >= 0.0
    ensures bs[i].le.Finite? ==> LowerOf(bs, i) < bs[i].le.r
  {
    if i > 0 { assert Under(bs[i - 1].le, bs[i].le); }
  }

  /** Observations up to `x`, from bucket `i` on: by interpolation between the
      buckets' bounds; past the last finite bound, the count there. */
  function CdfFrom(bs: seq<Bucket>, i: nat, x: real): real
    requires i <= |bs| && Rising(bs) && Positive(bs)
    decreases |bs| - i
  {
    if i == |bs| || bs[i].le.Infinite? then BelowOf(bs, i)
    else if x <= bs[i].le.r then
      LowerIsLower(bs, i);
      Line(LowerOf(bs, i), BelowOf(bs, i), bs[i].le.r, bs[i].cum, x)
    else CdfFrom(bs, i + 1, x)
  }

  /** Observations up to `x`; the first bucket begins at 0. */
  function Cdf(bs: seq<Bucket>, x: real): real
    requires Rising(bs) && Positive(bs)
  {
    if x <= 0.0 then 0.0 else CdfFrom(bs, 0, x)
  }

  /** Bucket `i` is the first to reach `rank`. */
  ghost predicate Holds(bs: seq<Bucket>, i: nat, rank: real)
    requires i < |bs|
  {
    bs[i].cum >= rank && forall j :: 0 <= j < i ==> bs[j].cum < rank
  }

  lemma SignOfProduct(a: real, b: real)
    requires b > 0.0
    ensures (a * b > 0.0 <==> a > 0.0) && (a * b < 0.0 <==> a < 0.0)
  {
  }

  lemma RankWithin(q: real, count: real)
    requires count > 0.0 && 0.0 < q <= 1.0
    ensures 0.0 < q * count <= count
  {
    SignOfProduct(q, count);
    assert (1.0 - q) * count == count - q * count;
    SignOfProduct(1.0 - q, count);
  }

  /** A share grows with its part, and taken back to where it came from is the part. */
  lemma ShareRises(w: real, n: real, n': real, c: real)
    requires w > 0.0 && c > 0.0
    ensures n < n' <==> Share(w, n, c) < Share(w, n', c)
  {
    var a, b := Share(w, n, c), Share(w, n', c);
    assert a * c == w * n && b * c == w * n';
    assert (b - a) * c == (n' - n) * w;
    SignOfProduct(b - a, c);
    SignOfProduct(n' - n, w);
  }

  lemma ShareEnds(w: real, c: real)
    requires c != 0.0
    ensures Share(w, 0.0, c) == 0.0 && Share(w, c, c) == w
  {
  }

  lemma ShareBack(w: real, n: real, c: real)
    requires w > 0.0 && 0.0 < n <= c
    ensures 0.0 < Share(w, n, c) <= w
    ensures Share(c, Share(w, n, c), w) == n
  {
    ShareRises(w, 0.0, n, c);
    ShareRises(w, n, c, c);
    ShareEnds(w, c);
    var f := Share(w, n, c);
    assert f * c == w * n;
    assert c * f == n * w;
    assert (n * w) / w == n;
  }

  lemma ShareNegates(w: real, n: real, c: real)
    requires c != 0.0
    ensures Share(-w, n, c) == -Share(w, n, c)
  {
    var a, b := Share(w, n, c), Share(-w, n, c);
    assert a * c == w * n && b * c == -w * n;
    assert (a + b) * c == 0.0;
  }

  /** A point of the line lies between its ends. */
  lemma LineBounded(lower: real, below: real, le: real, cum: real, x: real)
    requires lower < x <= le
    ensures var y := Line(lower, below, le, cum, x);
      below <= y <= cum || cum <= y <= below
  {
    var c, n, w := cum - below, x - lower, le - lower;
    if c > 0.0 {
      ShareRises(c, 0.0, n, w);
      ShareRises(c, n, w, w);
      ShareEnds(c, w);
    } else if c < 0.0 {
      ShareNegates(c, n, w);
      ShareRises(-c, 0.0, n, w);
      ShareRises(-c, n, w, w);
      ShareEnds(-c, w);
    }
  }

  lemma LineRises(lower: real, below: real, le: real, cum: real, x: real, y: real)
    requires lower < le && below < cum
    ensures x < y <==> Line(lower, below, le, cum, x) < Line(lower, below, le, cum, y)
  {
    ShareRises(cum - below, x - lower, y - lower, le - lower);
  }

  lemma {:induction false} ScanFinds(bs: seq<Bucket>, i: nat, rank: real) returns (k: nat)
    requires i < |bs| && bs[|bs| - 1].cum >= rank && forall j :: 0 <= j < i ==> bs[j].cum < rank
    ensures k < |bs| && Holds(bs, k, rank) && ScanFrom(bs, i, rank) == Some(Inside(bs, k, rank))
    decreases |bs| - i
  {
    if bs[i].cum >= rank { k := i; } else { k := ScanFinds(bs, i + 1, rank); }
  }

  /** What a quantile is: a value in the bucket that holds its rank, at which the
      distribution is exactly that rank; past the last finite bound, that bound. */
  ghost predicate AtRank(bs: seq<Bucket>, rank: real, i: nat, v: real)
    requires i < |bs| && Rising(bs) && Positive(bs)
  {
    && Holds(bs, i, rank)
    && if bs[i].le.Infinite? then (if i == 0 then v == 0.0 else bs[i - 1].le == Finite(v))
       else LowerOf(bs, i) < v <= bs[i].le.r && Cdf(bs, v) == rank
  }

  ghost predicate IsAtRank(bs: seq<Bucket>, rank: real, v: real)
    requires Rising(bs) && Positive(bs)
  {
    exists i :: 0 <= i < |bs| && AtRank(bs, rank, i, v)
  }

  lemma {:induction false} CdfIn(bs: seq<Bucket>, k: nat, i: nat, x: real)
    requires Rising(bs) && Positive(bs) && k <= i < |bs| && bs[i].le.Finite? && LowerOf(bs, i) < x <= bs[i].le.r
    ensures LowerOf(bs, i) < bs[i].le.r
    ensures CdfFrom(bs, k, x) == Line(LowerOf(bs, i), BelowOf(bs, i), bs[i].le.r, bs[i].cum, x)
    decreases i - k
  {
    LowerIsLower(bs, i);
    if k < i {
      assert Under(bs[k].le, bs[i].le);
      assert k < i - 1 ==> Under(bs[k].le, bs[i - 1].le);
      CdfIn(bs, k + 1, i, x);
    }
  }

  lemma BelowRank(bs: seq<Bucket>, i: nat, rank: real)
    requires i < |bs| && Holds(bs, i, rank) && rank > 0.0
    ensures BelowOf(bs, i) < rank
  {
  }

  /** The `q` quantile exists for 0 < q <= 1: the distribution there is exactly
      `q` of the count, unless that is past the last finite bound, where it is at
      no value, and that bound is the quantile. */
  lemma QuantileIsAtRank(bs: seq<Bucket>, q: real) returns (i: nat)
    requires Rising(bs) && Positive(bs) && bs != [] && bs[|bs| - 1].cum > 0.0 && 0.0 < q <= 1.0
    ensures i < |bs| && QuantileOf(bs, q).Some?
    ensures AtRank(bs, q * bs[|bs| - 1].cum, i, QuantileOf(bs, q).value)
    ensures bs[i].le.Finite? ==> Cdf(bs, QuantileOf(bs, q).value) == q * bs[|bs| - 1].cum
    ensures bs[i].le.Infinite? ==> forall x :: Cdf(bs, x) < q * bs[|bs| - 1].cum
  {
    RankWithin(q, bs[|bs| - 1].cum);
    i := ScanIsAtRank(bs, q * bs[|bs| - 1].cum);
  }

  /** Without observations there is none, and only then. */
  lemma NoneWithoutData(bs: seq<Bucket>, q: real)
    requires 0.0 < q <= 1.0
    ensures QuantileOf(bs, q).None? <==> bs == [] || bs[|bs| - 1].cum <= 0.0
  {
    if bs != [] && bs[|bs| - 1].cum > 0.0 {
      RankWithin(q, bs[|bs| - 1].cum);
      var k := ScanFinds(bs, 0, q * bs[|bs| - 1].cum);
    }
  }

  lemma ScanIsAtRank(bs: seq<Bucket>, rank: real) returns (i: nat)
    requires Rising(bs) && Positive(bs) && bs != [] && 0.0 < rank <= bs[|bs| - 1].cum
    ensures i < |bs| && ScanFrom(bs, 0, rank).Some? && AtRank(bs, rank, i, ScanFrom(bs, 0, rank).value)
    ensures bs[i].le.Infinite? ==> forall x :: Cdf(bs, x) < rank
  {
    i := ScanFinds(bs, 0, rank);
    InsideIsAtRank(bs, i, rank);
    if bs[i].le.Infinite? {
      forall x ensures Cdf(bs, x) < rank {
        if x > 0.0 { CdfStaysUnder(bs, 0, i, x, rank); }
      }
    }
  }

  /** Short of the infinite bucket the distribution is under what no bucket before
      it reaches. */
  lemma {:induction false} CdfStaysUnder(bs: seq<Bucket>, k: nat, i: nat, x: real, rank: real)
    requires Rising(bs) && Positive(bs) && k <= i < |bs| && bs[i].le.Infinite? && LowerOf(bs, k) < x
    requires BelowOf(bs, k) < rank && forall j :: 0 <= j < i ==> bs[j].cum < rank
    ensures CdfFrom(bs, k, x) < rank
    decreases i - k
  {
    InfiniteIsLast(bs);
    if k < i {
      LowerIsLower(bs, k);
      if x <= bs[k].le.r {
        LineBounded(LowerOf(bs, k), BelowOf(bs, k), bs[k].le.r, bs[k].cum, x);
      } else {
        CdfStaysUnder(bs, k + 1, i, x, rank);
      }
    }
  }

  /** `(x, y)` is on the straight line from (`lower`, `below`) to (`le`, `cum`). */
  predicate OnLine(lower: real, below: real, le: real, cum: real, x: real, y: real) {
    (y - below) * (le - lower) == (cum - below) * (x - lower)
  }

  lemma LineIs(lower: real, below: real, le: real, cum: real, x: real)
    requires lower < le
    ensures OnLine(lower, below, le, cum, x, Line(lower, below, le, cum, x)) && Line(lower, below, le, cum, le) == cum
  {
    ShareEnds(cum - below, le - lower);
    assert Share(cum - below, x - lower, le - lower) * (le - lower) == (cum - below) * (x - lower);
  }

  /** The distribution is each bucket's count at its bound, and goes from one to the
      next in a straight line, the first from 0 at 0. */
  lemma CdfIsPiecewiseLinear(bs: seq<Bucket>, i: nat, x: real)
    requires Rising(bs) && Positive(bs) && i < |bs| && bs[i].le.Finite? && 0.0 < x <= bs[i].le.r
    requires i > 0 ==> bs[i - 1].le.Finite? && bs[i - 1].le.r < x
    ensures Cdf(bs, bs[i].le.r) == bs[i].cum
    ensures i == 0 ==> OnLine(0.0, 0.0, bs[i].le.r, bs[i].cum, x, Cdf(bs, x))
    ensures i > 0 ==> OnLine(bs[i - 1].le.r, bs[i - 1].cum, bs[i].le.r, bs[i].cum, x, Cdf(bs, x))
  {
    LowerIsLower(bs, i);
    CdfIn(bs, 0, i, x);
    CdfIn(bs, 0, i, bs[i].le.r);
    LineIs(LowerOf(bs, i), BelowOf(bs, i), bs[i].le.r, bs[i].cum, x);
  }

  lemma InsideIsAtRank(bs: seq<Bucket>, i: nat, rank: real)
    requires Rising(bs) && Positive(bs) && i < |bs| && Holds(bs, i, rank) && rank > 0.0
    ensures AtRank(bs, rank, i, Inside(bs, i, rank))
  {
    BelowRank(bs, i, rank);
    if bs[i].le.Finite? {
      LowerIsLower(bs, i);
      var lower, below := LowerOf(bs, i), BelowOf(bs, i);
      ShareBack(bs[i].le.r - lower, rank - below, bs[i].cum - below);
      LowerIsLower(bs, i);
      CdfIn(bs, 0, i, Inside(bs, i, rank));
    }
  }

  /** A higher quantile is no smaller: p50 is at most p99. */
  lemma QuantilesRise(bs: seq<Bucket>, r: real, i: nat, v: real, r': real, i': nat, v': real)
    requires Rising(bs) && Positive(bs) && i < |bs| && i' < |bs| && 0.0 < r <= r'
    requires AtRank(bs, r, i, v) && AtRank(bs, r', i', v')
    ensures v <= v'
  {
    if i < i' {
      assert Under(bs[i].le, bs[i'].le);
      assert i < i' - 1 ==> Under(bs[i].le, bs[i' - 1].le);
    } else {
      assert i == i';
      if bs[i].le.Finite? {
        LowerIsLower(bs, i);
        CdfIn(bs, 0, i, v);
        CdfIn(bs, 0, i, v');
        BelowRank(bs, i, r);
        LineRises(LowerOf(bs, i), BelowOf(bs, i), bs[i].le.r, bs[i].cum, v', v);
      }
    }
  }

  /** The dashboard's condition: counts that never fall from bucket to bucket. */
  ghost predicate Consistent(bs: seq<Bucket>) {
    forall i :: 0 < i < |bs| ==> bs[i - 1].cum <= bs[i].cum
  }

  lemma {:induction false} ConsistentGrows(bs: seq<Bucket>, i: nat, j: nat)
    requires Consistent(bs) && i <= j < |bs|
    ensures bs[i].cum <= bs[j].cum
    decreases j
  {
    if i < j { ConsistentGrows(bs, i, j - 1); }
  }

  /** Every bound before bucket `j` is under `x`, and `j`'s is not, or there is
      no finite one left. */
  ghost predicate FallsIn(bs: seq<Bucket>, j: nat, x: real)
    requires j <= |bs|
  {
    && (forall m :: 0 <= m < j ==> bs[m].le.Finite? && bs[m].le.r < x)
    && (j == |bs| || bs[j].le.Infinite? || x <= bs[j].le.r)
  }

  lemma {:induction false} Locate(bs: seq<Bucket>, k: nat, x: real) returns (j: nat)
    requires Rising(bs) && Positive(bs) && k <= |bs| && forall m :: 0 <= m < k ==> bs[m].le.Finite? && bs[m].le.r < x
    ensures j <= |bs| && FallsIn(bs, j, x)
    ensures j == |bs| || bs[j].le.Infinite? ==> CdfFrom(bs, k, x) == BelowOf(bs, j)
    decreases |bs| - k
  {
    if k == |bs| || bs[k].le.Infinite? || x <= bs[k].le.r {
      j := k;
    } else {
      j := Locate(bs, k + 1, x);
    }
  }

  /** On a consistent histogram the quantile inverts the distribution: at least
      the rank is reached exactly from the quantile on; when the rank is past the
      last finite bound, nowhere. */
  lemma QuantileInvertsCdf(bs: seq<Bucket>, rank: real, i: nat, v: real, x: real)
    requires Rising(bs) && Positive(bs) && Consistent(bs) && rank > 0.0
    requires i < |bs| && AtRank(bs, rank, i, v)
    ensures bs[i].le.Finite? ==> (Cdf(bs, x) >= rank <==> x >= v)
    ensures bs[i].le.Infinite? ==> Cdf(bs, x) < rank
  {
    LowerIsLower(bs, i);
    if x > 0.0 {
      var j := Locate(bs, 0, x);
      if j < |bs| && bs[j].le.Finite? {
        InvertsInside(bs, rank, i, v, j, x);
      } else {
        InvertsPast(bs, rank, i, v, j, x);
      }
    }
  }

  lemma InvertsPast(bs: seq<Bucket>, rank: real, i: nat, v: real, j: nat, x: real)
    requires Rising(bs) && Positive(bs) && Consistent(bs) && rank > 0.0 && x > 0.0
    requires i < |bs| && AtRank(bs, rank, i, v)
    requires j <= |bs| && FallsIn(bs, j, x) && (j == |bs| || bs[j].le.Infinite?) && CdfFrom(bs, 0, x) == BelowOf(bs, j)
    ensures bs[i].le.Finite? ==> Cdf(bs, x) >= rank && x >= v
    ensures bs[i].le.Infinite? ==> Cdf(bs, x) < rank
  {
    InfiniteIsLast(bs);
    if bs[i].le.Finite? {
      ConsistentGrows(bs, i, j - 1);
    } else {
      BelowRank(bs, i, rank);
    }
  }

  lemma InfiniteIsLast(bs: seq<Bucket>)
    requires Rising(bs)
    ensures forall i :: 0 <= i < |bs| - 1 ==> bs[i].le.Finite?
  {
    forall i | 0 <= i < |bs| - 1 ensures bs[i].le.Finite? {
      assert Under(bs[i].le, bs[i + 1].le);
    }
  }

  lemma InvertsInside(bs: seq<Bucket>, rank: real, i: nat, v: real, j: nat, x: real)
    requires Rising(bs) && Positive(bs) && Consistent(bs) && rank > 0.0 && x > 0.0
    requires i < |bs| && AtRank(bs, rank, i, v)
    requires j < |bs| && bs[j].le.Finite? && FallsIn(bs, j, x)
    ensures bs[i].le.Finite? ==> (Cdf(bs, x) >= rank <==> x >= v)
    ensures bs[i].le.Infinite? ==> Cdf(bs, x) < rank
  {
    assert LowerOf(bs, j) < x;
    CdfIn(bs, 0, j, x);
    BelowRank(bs, i, rank);
    LowerIsLower(bs, i);
    if j < i {
      LineBounded(LowerOf(bs, j), BelowOf(bs, j), bs[j].le.r, bs[j].cum, x);
      assert Under(bs[j].le, bs[i].le);
      assert j < i - 1 ==> Under(bs[j].le, bs[i - 1].le);
    } else if j > i {
      assert Under(bs[i].le, bs[j].le);
      assert i < j - 1 ==> Under(bs[i].le, bs[j - 1].le);
      ConsistentGrows(bs, i, j - 1);
      ConsistentGrows(bs, i, j);
      LineBounded(LowerOf(bs, j), BelowOf(bs, j), bs[j].le.r, bs[j].cum, x);
    } else {
      CdfIn(bs, 0, i, v);
      LineRises(LowerOf(bs, i), BelowOf(bs, i), bs[i].le.r, bs[i].cum, x, v);
    }
  }

  // ----- the dashboard ----------------------------------------------------

  lemma HistogramIsUnique(
    cur: seq<Sample>, prev: seq<Sample>, name: string, read: Reader, a: seq<Bucket>, b: seq<Bucket>)
    requires IsHistogram(cur, prev, name, read, a) && IsHistogram(cur, prev, name, read, b)
    ensures a == b
  {
    var x, y := BoundsOf(a), BoundsOf(b);
    forall e ensures e in x <==> e in y {
      if e in x { var i :| 0 <= i < |a| && a[i].le == e; var j :| 0 <= j < |b| && b[j].le == e; assert y[j] == e; }
      if e in y { var i :| 0 <= i < |b| && b[i].le == e; var j :| 0 <= j < |a| && a[j].le == e; assert x[j] == e; }
    }
    BoundsAreOrdered();
    DistinctSameElements(x, y);
    SortedIsUnique(x, y, NotAbove);
    forall i | 0 <= i < |a| ensures a[i] == b[i] { assert x[i] == y[i]; }
  }

  datatype Latency = Known(p50: real, p99: real) | NoData | Inconsistent

  /** Every bound of `cur` is a number. */
  ghost predicate AllRead(cur: seq<Sample>, name: string, read: Reader) {
    forall le :: Occurs(cur, name, le) ==> read(le).Some?
  }

  /** Each bound of `cur` is a number written one way, no earlier bound is gone,
      and none was counted before under another spelling. */
  ghost predicate Comparable(cur: seq<Sample>, prev: seq<Sample>, name: string, read: Reader) {
    && AllRead(cur, name, read)
    && OneSpelling(cur, name, read)
    && (forall b :: BoundOccurs(prev, name, b, read) ==> BoundOccurs(cur, name, b, read))
    && (forall le :: Occurs(cur, name, le) ==> Total(prev, name, le) == TotalAt(prev, name, read(le).value, read))
  }

  ghost predicate OneSpelling(cur: seq<Sample>, name: string, read: Reader) {
    forall le, le' :: Occurs(cur, name, le) && Occurs(cur, name, le') && read(le) == read(le') ==> le == le'
  }

  lemma {:induction false} TotalsAgree(ss: seq<Sample>, name: string, le: string, read: Reader)
    requires read(le).Some?
    requires forall i :: 0 <= i < |ss| && ss[i].name == name && read(LeOf(ss[i])) == read(le) ==> LeOf(ss[i]) == le
    ensures TotalAt(ss, name, read(le).value, read) == Total(ss, name, le)
  {
    if ss != [] { TotalsAgree(ss[..|ss| - 1], name, le, read); }
  }

  lemma {:induction false} AbsentIsZero(ss: seq<Sample>, name: string, le: string)
    requires !Occurs(ss, name, le)
    ensures Total(ss, name, le) == 0.0
  {
    if ss != [] { AbsentIsZero(ss[..|ss| - 1], name, le); }
  }

  lemma BoundTotals(cur: seq<Sample>, name: string, read: Reader, le: string)
    requires OneSpelling(cur, name, read) && Occurs(cur, name, le) && read(le).Some?
    ensures TotalAt(cur, name, read(le).value, read) == Total(cur, name, le)
    ensures BoundOccurs(cur, name, read(le).value, read)
  {
    forall i | 0 <= i < |cur| && cur[i].name == name && read(LeOf(cur[i])) == read(le) ensures LeOf(cur[i]) == le {
      assert Occurs(cur, name, LeOf(cur[i]));
    }
    TotalsAgree(cur, name, le, read);
  }

  /** The bounds the keys read as are numbers, and do not fall. */
  ghost predicate KeysInOrder(keys: seq<string>, read: Reader) {
    && (forall i :: 0 <= i < |keys| ==> read(keys[i]).Some?)
    && (forall i, j :: 0 <= i < j < |keys| ==> NotAbove(read(keys[i]).value, read(keys[j]).value))
  }

  /** The dashboard's own list of increases is the histogram `quantile` uses. */
  lemma IncreasesAreTheHistogram(
    cur: seq<Sample>, prev: seq<Sample>, name: string, read: Reader, keys: seq<string>, bs: seq<Bucket>)
    requires Comparable(cur, prev, name, read) && KeysInOrder(keys, read)
    requires Distinct(keys) && |bs| == |keys| && forall le :: le in keys <==> Occurs(cur, name, le)
    requires forall i :: 0 <= i < |keys| ==>
      read(keys[i]) == Some(bs[i].le) && bs[i].cum == Total(cur, name, keys[i]) - Total(prev, name, keys[i])
    ensures IsHistogram(cur, prev, name, read, bs)
  {
    forall i, j | 0 <= i < j < |bs| ensures Under(bs[i].le, bs[j].le) {
      assert keys[i] in keys && keys[j] in keys;
    }
    forall i | 0 <= i < |bs|
      ensures BoundOccurs(cur, name, bs[i].le, read)
      ensures bs[i].cum == TotalAt(cur, name, bs[i].le, read) - TotalAt(prev, name, bs[i].le, read)
    {
      assert keys[i] in keys;
      BoundTotals(cur, name, read, keys[i]);
    }
    forall b | BoundOccurs(cur, name, b, read) || BoundOccurs(prev, name, b, read)
      ensures exists i :: 0 <= i < |bs| && bs[i].le == b
    {
      assert BoundOccurs(cur, name, b, read);
      var le := OccurringBound(cur, name, b, read);
      var a :| 0 <= a < |keys| && keys[a] == le;
      assert bs[a].le == b;
    }
  }

  lemma OccurringBound(cur: seq<Sample>, name: string, b: Bound, read: Reader) returns (le: string)
    requires BoundOccurs(cur, name, b, read)
    ensures Occurs(cur, name, le) && read(le) == Some(b)
  {
    var i :| 0 <= i < |cur| && cur[i].name == name && read(LeOf(cur[i])) == Some(b);
    le := LeOf(cur[i]);
  }

  lemma RisingDiffers(bs: seq<Bucket>)
    requires Rising(bs)
    ensures forall i, j :: 0 <= i < j < |bs| ==> bs[i].le != bs[j].le
  {
    forall i, j | 0 <= i < j < |bs| ensures bs[i].le != bs[j].le { assert Under(bs[i].le, bs[j].le); }
  }

  lemma RisingSpelledOnce(cur: seq<Sample>, name: string, read: Reader, keys: seq<string>, bs: seq<Bucket>)
    requires |bs| == |keys| && forall le :: le in keys <==> Occurs(cur, name, le)
    requires (forall i :: 0 <= i < |keys| ==> read(keys[i]) == Some(bs[i].le)) && Rising(bs)
    ensures AllRead(cur, name, read) && OneSpelling(cur, name, read)
  {
    RisingDiffers(bs);
    forall le, le' | Occurs(cur, name, le) && Occurs(cur, name, le') && read(le) == read(le') ensures le == le' {
      assert le in keys && le' in keys;
      var i :| 0 <= i < |keys| && keys[i] == le;
      var j :| 0 <= j < |keys| && keys[j] == le';
    }
  }

  lemma NoneIsGone(cur: seq<Sample>, name: string, read: Reader, keys: seq<string>, bs: seq<Bucket>, b: Bound)
    requires |bs| == |keys| && forall le :: le in keys <==> Occurs(cur, name, le)
    requires AllRead(cur, name, read) && OneSpelling(cur, name, read)
    requires forall i :: 0 <= i < |keys| ==> read(keys[i]) == Some(bs[i].le)
    requires exists i :: 0 <= i < |bs| && bs[i].le == b
    ensures BoundOccurs(cur, name, b, read)
  {
    var i :| 0 <= i < |bs| && bs[i].le == b;
    assert keys[i] in keys;
    BoundTotals(cur, name, read, keys[i]);
  }

  /** Only then is it. */
  lemma HistogramNeedsComparable(
    cur: seq<Sample>, prev: seq<Sample>, name: string, read: Reader, keys: seq<string>, bs: seq<Bucket>)
    requires |bs| == |keys| && forall le :: le in keys <==> Occurs(cur, name, le)
    requires forall i :: 0 <= i < |keys| ==>
      read(keys[i]) == Some(bs[i].le) && bs[i].cum == Total(cur, name, keys[i]) - Total(prev, name, keys[i])
    requires IsHistogram(cur, prev, name, read, bs)
    ensures Comparable(cur, prev, name, read)
  {
    RisingSpelledOnce(cur, name, read, keys, bs);
    forall le | Occurs(cur, name, le) ensures Total(prev, name, le) == TotalAt(prev, name, read(le).value, read) {
      assert le in keys;
      var i :| 0 <= i < |keys| && keys[i] == le;
      assert bs[i].cum == TotalAt(cur, name, bs[i].le, read) - TotalAt(prev, name, bs[i].le, read);
      BoundTotals(cur, name, read, le);
    }
    forall b | BoundOccurs(prev, name, b, read) ensures BoundOccurs(cur, name, b, read) {
      NoneIsGone(cur, name, read, keys, bs, b);
    }
  }

  /** The histogram ends in an infinite bucket with something in it. */
  ghost predicate HasData(bs: seq<Bucket>) {
    bs != [] && bs[|bs| - 1].le.Infinite? && bs[|bs| - 1].cum > 0.0
  }

  /** What the dashboard may show for histogram `bs`: percentiles only when it
      has data and its counts never fall, and then true ones. */
  ghost predicate Justified(bs: seq<Bucket>, l: Latency)
    requires Rising(bs)
  {
    && (l.NoData? <==> !HasData(bs))
    && (l.Inconsistent? <==> HasData(bs) && !Consistent(bs))
    && (l.Known? && Positive(bs) ==>
        && l.p50 <= l.p99
        && IsAtRank(bs, 0.5 * bs[|bs| - 1].cum, l.p50)
        && IsAtRank(bs, 0.99 * bs[|bs| - 1].cum, l.p99))
  }

  lemma PercentileExists(bs: seq<Bucket>, rank: real)
    requires Rising(bs) && bs != [] && 0.0 < rank <= bs[|bs| - 1].cum
    ensures ScanFrom(bs, 0, rank).Some?
    ensures Positive(bs) ==> IsAtRank(bs, rank, ScanFrom(bs, 0, rank).value)
  {
    var k := ScanFinds(bs, 0, rank);
    if Positive(bs) { var i := ScanIsAtRank(bs, rank); }
  }

  lemma HigherRankNoLower(bs: seq<Bucket>, r: real, v: real, r': real, v': real)
    requires Rising(bs) && Positive(bs) && 0.0 < r <= r' && IsAtRank(bs, r, v) && IsAtRank(bs, r', v')
    ensures v <= v'
  {
    var i :| 0 <= i < |bs| && AtRank(bs, r, i, v);
    var i' :| 0 <= i' < |bs| && AtRank(bs, r', i', v');
    QuantilesRise(bs, r, i, v, r', i', v');
  }

  lemma PercentilesAreJustified(bs: seq<Bucket>, p50: Option<real>, p99: Option<real>)
    requires Rising(bs) && HasData(bs) && Consistent(bs)
    requires p50 == QuantileOf(bs, 0.5) && p99 == QuantileOf(bs, 0.99)
    ensures p50.Some? && p99.Some?
    ensures Justified(bs, Known(p50.value, p99.value))
  {
    var half, most := 0.5 * bs[|bs| - 1].cum, 0.99 * bs[|bs| - 1].cum;
    PercentileExists(bs, half);
    PercentileExists(bs, most);
    if Positive(bs) { HigherRankNoLower(bs, half, p50.value, most, p99.value); }
  }

  /** One bucket's increase; no bound when its text is not a number. */
  datatype Entry = Entry(le: Option<Bound>, cum: real)

  /** The engine's sort by bound: a reordering, in order when all bounds are
      numbers. What it does with a NaN is the engine's own. */
  ghost predicate SortsByBound(sort: seq<string> -> seq<string>, read: Reader) {
    forall keys ::
      && multiset(sort(keys)) == multiset(keys)
      && ((forall i :: 0 <= i < |keys| ==> read(keys[i]).Some?) ==> KeysInOrder(sort(keys), read))
  }

  function BucketsOf(inc: seq<Entry>): (bs: seq<Bucket>)
    requires forall i :: 0 <= i < |inc| ==> inc[i].le.Some?
    ensures |bs| == |inc| && forall i :: 0 <= i < |inc| ==> bs[i] == Bucket(inc[i].le.value, inc[i].cum)
  {
    seq(|inc|, i requires 0 <= i < |inc| => Bucket(inc[i].le.value, inc[i].cum))
  }

  ghost predicate AreIncreases(cur: seq<Sample>, prev: seq<Sample>, bucket: string, read: Reader, inc: seq<Entry>) {
    && (forall i :: 0 <= i < |inc| ==> inc[i].le.Some?)
    && IsHistogram(cur, prev, bucket, read, BucketsOf(inc))
  }

  /** The increase of each bucket the current scrape has, by bound: the list is
      sorted by its bounds, that is by what its keys read as. */
  method Increases(
    cur: seq<Sample>, prev: seq<Sample>, bucket: string, read: Reader, sort: seq<string> -> seq<string>)
    returns (inc: seq<Entry>)
    requires SortsByBound(sort, read)
    ensures AreIncreases(cur, prev, bucket, read, inc) <==> Comparable(cur, prev, bucket, read)
  {
    var a := GroupSum(cur, bucket);
    var b := GroupSum(prev, bucket);
    var unsorted := KeysOf(a);
    var keys := sort(unsorted);
    SameKeys(unsorted, keys);
    forall le | le in keys && le !in b ensures Total(prev, bucket, le) == 0.0 {
      AbsentIsZero(prev, bucket, le);
    }
    inc := ListEntries(cur, prev, bucket, read, a, b, keys);
    assert forall i :: 0 <= i < |unsorted| ==> unsorted[i] in unsorted;
    EntriesAreIncreases(cur, prev, bucket, read, keys, inc);
  }

  method ListEntries(
    ghost cur: seq<Sample>, ghost prev: seq<Sample>, ghost name: string, read: Reader,
    a: map<string, real>, b: map<string, real>, keys: seq<string>)
    returns (inc: seq<Entry>)
    requires forall le :: le in keys ==> le in a && a[le] == Total(cur, name, le)
    requires forall le :: le in keys ==> Total(prev, name, le) == if le in b then b[le] else 0.0
    ensures EntriesFor(cur, prev, name, read, keys, inc)
  {
    inc := [];
    for i := 0 to |keys|
      invariant EntriesFor(cur, prev, name, read, keys[..i], inc)
    {
      var le := keys[i];
      inc := inc + [Entry(read(le), a[le] - (if le in b then b[le] else 0.0))];
    }
    assert keys[..|keys|] == keys;
  }

  ghost predicate EntriesFor(
    cur: seq<Sample>, prev: seq<Sample>, name: string, read: Reader, keys: seq<string>, inc: seq<Entry>)
  {
    |inc| == |keys| && forall n :: 0 <= n < |keys| ==>
      inc[n] == Entry(read(keys[n]), Total(cur, name, keys[n]) - Total(prev, name, keys[n]))
  }

  lemma EntriesAreIncreases(
    cur: seq<Sample>, prev: seq<Sample>, name: string, read: Reader, keys: seq<string>, inc: seq<Entry>)
    requires AllRead(cur, name, read) ==> KeysInOrder(keys, read)
    requires EntriesFor(cur, prev, name, read, keys, inc)
    requires Distinct(keys) && forall le :: le in keys <==> Occurs(cur, name, le)
    ensures AreIncreases(cur, prev, name, read, inc) <==> Comparable(cur, prev, name, read)
  {
    if Comparable(cur, prev, name, read) {
      IncreasesAreTheHistogram(cur, prev, name, read, keys, BucketsOf(inc));
    }
    if AreIncreases(cur, prev, name, read, inc) {
      HistogramNeedsComparable(cur, prev, name, read, keys, BucketsOf(inc));
    }
  }

  lemma SameKeys(a: seq<string>, b: seq<string>)
    requires multiset(b) == multiset(a) && Distinct(a)
    ensures Distinct(b) && forall k :: k in b <==> k in a
  {
    SameElementsDistinct(a, b);
    forall k ensures k in b <==> k in a {
      assert k in a <==> k in multiset(a);
      assert k in b <==> k in multiset(b);
    }
  }

  /** The percentiles shown are those of the histogram. */
  ghost predicate AreQuantiles(cur: seq<Sample>, prev: seq<Sample>, bucket: string, read: Reader, l: Latency) {
    l.Known? ==> exists bs :: IsHistogram(cur, prev, bucket, read, bs) && GivesBoth(bs, Some(l.p50), Some(l.p99))
  }

  predicate GivesBoth(bs: seq<Bucket>, p50: Option<real>, p99: Option<real>) {
    p50 == QuantileOf(bs, 0.5) && p99 == QuantileOf(bs, 0.99)
  }

  /** `liveLatency`. */
  method LiveLatency(
    cur: seq<Sample>, prev: seq<Sample>, bucket: string, read: Reader, sort: seq<string> -> seq<string>)
    returns (l: Latency)
    requires SortsByBound(sort, read)
    ensures AreQuantiles(cur, prev, bucket, read, l)
    ensures Comparable(cur, prev, bucket, read) ==>
      exists bs :: IsHistogram(cur, prev, bucket, read, bs) && Justified(bs, l)
  {
    var inc := Increases(cur, prev, bucket, read, sort);
    var verdict := Guard(inc);
    if verdict.Some? {
      if Comparable(cur, prev, bucket, read) { GuardIsRight(inc, verdict); }
      return verdict.value;
    }
    var p50 := QuantileBetween(cur, prev, bucket, 0.5, read);
    var p99 := QuantileBetween(cur, prev, bucket, 0.99, read);
    ghost var bs := OneHistogram(cur, prev, bucket, read, p50, p99);
    if Comparable(cur, prev, bucket, read) {
      GuardIsRight(inc, verdict);
      HistogramIsUnique(cur, prev, bucket, read, bs, BucketsOf(inc));
      PercentilesAreJustified(bs, p50, p99);
    }
    if p50.None? || p99.None? {
      return NoData;
    }
    return Known(p50.value, p99.value);
  }

  /** Why there are no percentiles to show, if so. */
  method Guard(inc: seq<Entry>) returns (verdict: Option<Latency>)
    ensures verdict == GuardOf(inc)
  {
    if inc == [] || inc[|inc| - 1].le != Some(Infinite) || inc[|inc| - 1].cum <= 0.0 {
      return Some(NoData);
    }
    for i := 1 to |inc|
      invariant forall n :: 0 < n < i ==> inc[n - 1].cum <= inc[n].cum
    {
      if inc[i].cum < inc[i - 1].cum {
        return Some(Inconsistent);
      }
    }
    return None;
  }

  ghost function GuardOf(inc: seq<Entry>): Option<Latency> {
    if inc == [] || inc[|inc| - 1].le != Some(Infinite) || inc[|inc| - 1].cum <= 0.0 then Some(NoData)
    else if exists n :: 0 < n < |inc| && inc[n].cum < inc[n - 1].cum then Some(Inconsistent)
    else None
  }

  lemma GuardIsRight(inc: seq<Entry>, verdict: Option<Latency>)
    requires (forall i :: 0 <= i < |inc| ==> inc[i].le.Some?) && Rising(BucketsOf(inc)) && verdict == GuardOf(inc)
    ensures verdict.Some? ==> Justified(BucketsOf(inc), verdict.value)
    ensures verdict.None? ==> HasData(BucketsOf(inc)) && Consistent(BucketsOf(inc))
  {
    var bs := BucketsOf(inc);
    assert forall n :: 0 <= n < |inc| ==> bs[n].cum == inc[n].cum;
    if n :| 0 < n < |inc| && inc[n].cum < inc[n - 1].cum {
      assert bs[n].cum < bs[n - 1].cum;
    }
  }

  lemma OneHistogram(
    cur: seq<Sample>, prev: seq<Sample>, name: string, read: Reader, p: Option<real>, p': Option<real>)
    returns (bs: seq<Bucket>)
    requires exists bs :: IsHistogram(cur, prev, name, read, bs) && p == QuantileOf(bs, 0.5)
    requires exists bs :: IsHistogram(cur, prev, name, read, bs) && p' == QuantileOf(bs, 0.99)
    ensures IsHistogram(cur, prev, name, read, bs) && GivesBoth(bs, p, p')
  {
    bs :| IsHistogram(cur, prev, name, read, bs) && p == QuantileOf(bs, 0.5);
    var bs' :| IsHistogram(cur, prev, name, read, bs') && p' == QuantileOf(bs', 0.99);
    HistogramIsUnique(cur, prev, name, read, bs, bs');
  }

  // ----- a bound that is gone ---------------------------------------------

  function BucketSample(le: string, count: real): Sample {
    Exposition.Sample("b", map["le" := le], count)
  }

  function ReadOneTwo(le: string): Option<Bound> {
    if le == "1" then Some(Finite(1.0)) else if le == "2" then Some(Finite(2.0))
    else if le == "+Inf" then Some(Infinite) else None
  }

  lemma TotalsOfTwo(x: Sample, y: Sample, name: string, le: string, b: Bound, read: Reader)
    ensures Total([x, y], name, le) == (if x.name == name && LeOf(x) == le then x.value else 0.0) +
      (if y.name == name && LeOf(y) == le then y.value else 0.0)
    ensures TotalAt([x, y], name, b, read) == (if x.name == name && read(LeOf(x)) == Some(b) then x.value else 0.0) +
      (if y.name == name && read(LeOf(y)) == Some(b) then y.value else 0.0)
  {
    assert [x, y][..1] == [x] && [x][..0] == [];
    assert Total([x], name, le) == if x.name == name && LeOf(x) == le then x.value else 0.0;
    assert TotalAt([x], name, b, read) == if x.name == name && read(LeOf(x)) == Some(b) then x.value else 0.0;
  }

  lemma BoundsOfTwo(x: Sample, y: Sample, name: string, b: Bound, read: Reader)
    requires x.name == y.name == name
    ensures BoundOccurs([x, y], name, b, read) <==> read(LeOf(x)) == Some(b) || read(LeOf(y)) == Some(b)
  {
    assert [x, y][0] == x && [x, y][1] == y;
  }

  function GoneCur(): seq<Sample> { [BucketSample("1", 5.0), BucketSample("+Inf", 10.0)] }

  function GonePrev(): seq<Sample> { [BucketSample("1", 0.0), BucketSample("2", 3.0)] }

  function GoneBuckets(): seq<Bucket> {
    [Bucket(Finite(1.0), 5.0), Bucket(Finite(2.0), -3.0), Bucket(Infinite, 10.0)]
  }

  lemma TextsDiffer()
    ensures "1" != "2" && "1" != "+Inf" && "2" != "+Inf"
  {
    assert "1"[0] != "2"[0] && "1"[0] != "+Inf"[0] && "2"[0] != "+Inf"[0];
  }

  lemma GoneIsTheHistogram()
    ensures IsHistogram(GoneCur(), GonePrev(), "b", ReadOneTwo, GoneBuckets())
  {
    var x, y := BucketSample("1", 5.0), BucketSample("+Inf", 10.0);
    var z, w := BucketSample("1", 0.0), BucketSample("2", 3.0);
    TextsDiffer();
    forall b
      ensures BoundOccurs([x, y], "b", b, ReadOneTwo) <==> b == Finite(1.0) || b == Infinite
      ensures BoundOccurs([z, w], "b", b, ReadOneTwo) <==> b == Finite(1.0) || b == Finite(2.0)
    {
      BoundsOfTwo(x, y, "b", b, ReadOneTwo);
      BoundsOfTwo(z, w, "b", b, ReadOneTwo);
    }
    forall b
      ensures TotalAt([x, y], "b", b, ReadOneTwo) ==
        if b == Finite(1.0) then 5.0 else if b == Infinite then 10.0 else 0.0
      ensures TotalAt([z, w], "b", b, ReadOneTwo) == if b == Finite(2.0) then 3.0 else 0.0
    {
      TotalsOfTwo(x, y, "b", "", b, ReadOneTwo);
      TotalsOfTwo(z, w, "b", "", b, ReadOneTwo);
    }
    var bs := GoneBuckets();
    assert bs[0].le == Finite(1.0) && bs[1].le == Finite(2.0) && bs[2].le == Infinite;
  }

  lemma GoneGivesTwo()
    ensures !Consistent(GoneBuckets()) && QuantileOf(GoneBuckets(), 0.99) == Some(2.0)
  {
    var bs := GoneBuckets();
    assert bs[1].cum < bs[0].cum;
    assert ScanFrom(bs, 2, 0.99 * 10.0) == Some(2.0);
    assert ScanFrom(bs, 1, 0.99 * 10.0) == Some(2.0);
  }

  function GoneEntries(): seq<Entry> {
    [Entry(Some(Finite(1.0)), 5.0), Entry(Some(Infinite), 10.0)]
  }

  lemma GoneTotals()
    ensures Total(GoneCur(), "b", "1") == 5.0 && Total(GonePrev(), "b", "1") == 0.0
    ensures Total(GoneCur(), "b", "+Inf") == 10.0 && Total(GonePrev(), "b", "+Inf") == 0.0
  {
    var x, y := BucketSample("1", 5.0), BucketSample("+Inf", 10.0);
    var z, w := BucketSample("1", 0.0), BucketSample("2", 3.0);
    TextsDiffer();
    TotalsOfTwo(x, y, "b", "1", Infinite, ReadOneTwo);
    TotalsOfTwo(x, y, "b", "+Inf", Infinite, ReadOneTwo);
    TotalsOfTwo(z, w, "b", "1", Infinite, ReadOneTwo);
    TotalsOfTwo(z, w, "b", "+Inf", Infinite, ReadOneTwo);
  }

  lemma TwoEntries(cur: seq<Sample>, prev: seq<Sample>, name: string, read: Reader, a: string, b: string)
    ensures EntriesFor(cur, prev, name, read, [a, b],
      [Entry(read(a), Total(cur, name, a) - Total(prev, name, a)),
       Entry(read(b), Total(cur, name, b) - Total(prev, name, b))])
  {
  }

  /** Where a bound is gone the guard can pass a histogram whose counts fall: 5 more
      at 1 and 10 more in all, while 2, which had 3, is not scraped any more. The
      percentiles are then those of `[1: 5, 2: -3, +Inf: 10]`. */
  lemma GoneBoundPasses()
    ensures EntriesFor(GoneCur(), GonePrev(), "b", ReadOneTwo, ["1", "+Inf"], GoneEntries())
    ensures GuardOf(GoneEntries()) == None
    ensures IsHistogram(GoneCur(), GonePrev(), "b", ReadOneTwo, GoneBuckets())
    ensures !Consistent(GoneBuckets()) && QuantileOf(GoneBuckets(), 0.99) == Some(2.0)
  {
    assert EntriesFor(GoneCur(), GonePrev(), "b", ReadOneTwo, ["1", "+Inf"], GoneEntries()) by {
      GoneTotals();
      TextsDiffer();
      TwoEntries(GoneCur(), GonePrev(), "b", ReadOneTwo, "1", "+Inf");
    }
    GoneIsTheHistogram();
    GoneGivesTwo();
  }
}
