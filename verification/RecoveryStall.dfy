/** The soak's watch for recovery that is stuck: the pool's placement groups are
    polled every minute, and the run fails when nothing has moved for too long
    with every OSD up. */
module RecoveryStall {
  import opened Basics

  datatype Pg = Pg(clean: bool, degraded: nat)

  /** `pgs` is empty when the poll got no answer, or no placement groups. */
  datatype Event =
    | Poll(now: real, pgs: seq<Pg>, recovered: Option<int>)
    | OsdsDown(now: real)

  datatype Mark = Mark(low: nat, recovered: Option<int>, moved: real)

  /** One poll that found the pool out of Clean. */
  datatype Sample = Sample(now: real, degraded: nat, recovered: Option<int>)

  function OutOfClean(pgs: seq<Pg>): seq<Pg> {
    if pgs == [] then []
    else (if pgs[0].clean then [] else [pgs[0]]) + OutOfClean(pgs[1..])
  }

  function Degraded(pgs: seq<Pg>): nat {
    if pgs == [] then 0 else pgs[0].degraded + Degraded(pgs[1..])
  }

  /** The groups kept are those not clean, each as often as it is there. */
  lemma {:induction false} KeepsTheUnclean(pgs: seq<Pg>, p: Pg)
    ensures multiset(OutOfClean(pgs))[p] == if p.clean then 0 else multiset(pgs)[p]
  {
    if pgs != [] {
      KeepsTheUnclean(pgs[1..], p);
      assert pgs == [pgs[0]] + pgs[1..];
    }
  }

  ghost predicate SomeUnclean(pgs: seq<Pg>) { exists p :: p in pgs && !p.clean }

  lemma {:induction false} KeptExactly(pgs: seq<Pg>)
    ensures OutOfClean(pgs) != [] <==> SomeUnclean(pgs)
  {
    if pgs != [] { KeptExactly(pgs[1..]); }
  }

  /** The objects degraded are the sum over the groups. */
  lemma {:induction false} DegradedAdds(a: seq<Pg>, p: Pg, b: seq<Pg>)
    ensures Degraded([p]) == p.degraded
    ensures Degraded(a + b) == Degraded(a) + Degraded(b)
  {
    if a == [] {
      assert a + b == b;
    } else {
      assert (a + b)[1..] == a[1..] + b;
      DegradedAdds(a[1..], p, b);
    }
  }

  // ----- what the watch should know, from the whole history ---------------

  /** The samples since the pool was last all Clean. */
  function Episode(h: seq<Event>): seq<Sample> {
    if h == [] then [] else
    var before := Episode(h[..|h| - 1]);
    match h[|h| - 1]
    case OsdsDown(_) => before
    case Poll(now, pgs, recovered) =>
      if pgs == [] then before
      else if OutOfClean(pgs) == [] then []
      else before + [Sample(now, Degraded(OutOfClean(pgs)), recovered)]
  }

  /** Sample `i` made progress: the first, or fewer objects degraded than ever
      in the episode, or another recovered count than the sample before. */
  ghost predicate Progress(ep: seq<Sample>, i: nat)
    requires i < |ep|
  {
    i == 0 || ep[i].recovered != ep[i - 1].recovered || forall j :: 0 <= j < i ==> ep[i].degraded < ep[j].degraded
  }

  /** No sample of the last `limit` seconds made progress. */
  ghost predicate NothingMoved(ep: seq<Sample>, now: real, limit: real) {
    forall i :: 0 <= i < |ep| && Progress(ep, i) ==> now - ep[i].now > limit
  }

  /** No OSD was seen down in the last `limit` seconds, of a run begun at `start`. */
  ghost predicate AllUp(start: real, h: seq<Event>, now: real, limit: real) {
    now - start > limit && forall i :: 0 <= i < |h| && h[i].OsdsDown? ==> now - h[i].now > limit
  }

  /** Each of the two threads reads a clock that does not go back. */
  ghost predicate ClocksForward(start: real, h: seq<Event>) {
    && (forall i :: 0 <= i < |h| && h[i].OsdsDown? ==> start <= h[i].now)
    && (forall i, j :: 0 <= i < j < |h| && h[i].OsdsDown? && h[j].OsdsDown? ==> h[i].now <= h[j].now)
    && (forall i, j :: 0 <= i < j < |h| && h[i].Poll? && h[j].Poll? ==> h[i].now <= h[j].now)
  }

  // ----- the watch --------------------------------------------------------

  /** What `pool_mark` holds for an episode. */
  ghost predicate Marks(m: Option<Mark>, ep: seq<Sample>) {
    match m
    case None => ep == []
    case Some(Mark(low, recovered, moved)) =>
      && ep != []
      && (forall j :: 0 <= j < |ep| ==> low <= ep[j].degraded)
      && (exists j :: 0 <= j < |ep| && ep[j].degraded == low)
      && recovered == ep[|ep| - 1].recovered
      && (exists p :: LastProgress(ep, p) && ep[p].now == moved)
  }

  ghost predicate LastProgress(ep: seq<Sample>, p: int) {
    0 <= p < |ep| && Progress(ep, p) && forall i :: p < i < |ep| ==> !Progress(ep, i)
  }

  ghost predicate LatestDown(start: real, h: seq<Event>, t: real) {
    && (t == start || OsdsDown(t) in h)
    && start <= t && forall i :: 0 <= i < |h| && h[i].OsdsDown? ==> h[i].now <= t
  }

  predicate Moved(m: Option<Mark>, degraded: nat, recovered: Option<int>) {
    m.None? || degraded < m.value.low || recovered != m.value.recovered
  }

  function Lower(m: Option<Mark>, degraded: nat): nat {
    if m.None? || degraded < m.value.low then degraded else m.value.low
  }

  class PoolWatch {
    var mark: Option<Mark>
    var leftCleanAt: Option<real>
    var lastOsdDown: real
    ghost var start: real
    ghost var history: seq<Event>

    ghost predicate Valid()
      reads this
    {
      && ClocksForward(start, history)
      && Marks(mark, Episode(history))
      && leftCleanAt == (if Episode(history) == [] then None else Some(Episode(history)[0].now))
      && LatestDown(start, history, lastOsdDown)
    }

    constructor (now: real)
      ensures Valid() && start == now && history == []
    {
      mark, leftCleanAt, lastOsdDown, start, history := None, None, now, now, [];
    }

    /** One turn of `pg_watch`: whether it fails the run. It does exactly when
        the pool is out of Clean, nothing has moved for over `limit` seconds and
        every OSD has been up that long. */
    method Turn(now: real, pgs: seq<Pg>, recovered: Option<int>, limit: real) returns (stuck: bool)
      requires Valid() && limit >= 0.0
      requires ClocksForward(start, history + [Poll(now, pgs, recovered)])
      modifies this
      ensures Valid() && start == old(start) && history == old(history) + [Poll(now, pgs, recovered)]
      ensures stuck <==>
        && SomeUnclean(pgs)
        && NothingMoved(Episode(history), now, limit)
        && AllUp(start, history, now, limit)
    {
      ghost var h, e := history, Poll(now, pgs, recovered);
      history := history + [e];
      EpisodeOn(h, e);
      DownsAppend(start, h, e, lastOsdDown);
      if pgs == [] {
        return false;
      }
      var out := OutOfClean(pgs);
      KeptExactly(pgs);
      if out == [] {
        leftCleanAt := None;
        mark := None;
        return false;
      }
      if leftCleanAt.None? {
        leftCleanAt := Some(now);
      }
      var degraded := Degraded(out);
      OutOfCleanTurn(start, h, e, mark, limit);
      if Moved(mark, degraded, recovered) {
        mark := Some(Mark(Lower(mark, degraded), recovered, now));
        return false;
      }
      stuck := now - mark.value.moved > limit && now - lastOsdDown > limit;
    }

    /** The progress thread saw OSDs down. */
    method SawOsdsDown(now: real)
      requires Valid() && ClocksForward(start, history + [OsdsDown(now)])
      modifies this
      ensures Valid() && start == old(start) && history == old(history) + [OsdsDown(now)]
    {
      ghost var h := history;
      history := history + [OsdsDown(now)];
      assert history[..|h|] == h;
      assert history[|h|] == OsdsDown(now);
      assert forall i :: 0 <= i < |h| ==> h[i] == history[i];
      lastOsdDown := now;
    }
  }

  lemma EpisodeOn(h: seq<Event>, e: Event)
    ensures Episode(h + [e]) ==
      match e
      case OsdsDown(_) => Episode(h)
      case Poll(now, pgs, recovered) =>
        if pgs == [] then Episode(h)
        else if OutOfClean(pgs) == [] then []
        else Episode(h) + [SampleOf(e)]
  {
    assert (h + [e])[..|h|] == h;
  }

  /** What a poll that found the pool out of Clean adds to the episode. */
  function SampleOf(e: Event): Sample
    requires e.Poll?
  {
    Sample(e.now, Degraded(OutOfClean(e.pgs)), e.recovered)
  }

  /** The part of a turn for a pool out of Clean. */
  lemma OutOfCleanTurn(start: real, h: seq<Event>, e: Event, m: Option<Mark>, limit: real)
    requires e.Poll? && ClocksForward(start, h + [e]) && Marks(m, Episode(h)) && limit >= 0.0
    ensures var x, ep := SampleOf(e), Episode(h) + [SampleOf(e)];
      && (Moved(m, x.degraded, x.recovered) ==>
            Marks(Some(Mark(Lower(m, x.degraded), x.recovered, x.now)), ep) && !NothingMoved(ep, x.now, limit))
      && (!Moved(m, x.degraded, x.recovered) ==>
            Marks(m, ep) && (NothingMoved(ep, x.now, limit) <==> x.now - m.value.moved > limit))
  {
    EpisodeTimes(start, h, e);
    JudgedRight(m, Episode(h), SampleOf(e), limit);
  }

  lemma DownsAppend(start: real, h: seq<Event>, e: Event, t: real)
    requires LatestDown(start, h, t) && e.Poll?
    ensures LatestDown(start, h + [e], t)
    ensures forall now, limit: real :: AllUp(start, h + [e], now, limit) <==> now - t > limit
  {
    var h' := h + [e];
    forall i | 0 <= i < |h'| && h'[i].OsdsDown? ensures h'[i].now <= t {
      assert h'[i] == h[i];
    }
    if OsdsDown(t) in h {
      var i :| 0 <= i < |h| && h[i] == OsdsDown(t);
      assert h'[i] == OsdsDown(t);
    }
  }

  /** An episode's samples are polls, so their times do not go back. */
  lemma {:induction false} EpisodeTimes(start: real, h: seq<Event>, e: Event)
    requires e.Poll? && ClocksForward(start, h + [e])
    ensures forall i :: 0 <= i < |Episode(h)| ==> Episode(h)[i].now <= e.now
    ensures forall i, j :: 0 <= i < j < |Episode(h)| ==> Episode(h)[i].now <= Episode(h)[j].now
  {
    if h != [] {
      var before, last := h[..|h| - 1], h[|h| - 1];
      var all := h + [e];
      assert forall i :: 0 <= i < |before| ==> before[i] == all[i];
      assert all[|h| - 1] == last && all[|h|] == e;
      assert ClocksForward(start, before + [e]) by {
        assert forall i :: 0 <= i < |before| ==> (before + [e])[i] == all[i];
      }
      EpisodeTimes(start, before, e);
      if last.Poll? {
        assert ClocksForward(start, before + [last]) by {
          assert forall i :: 0 <= i <= |before| ==> (before + [last])[i] == all[i];
        }
        EpisodeTimes(start, before, last);
      }
    }
  }

  /** A new sample makes progress exactly when the code's test against the mark
      says so, and does not change which earlier ones did. */
  lemma MarkStep(m: Option<Mark>, ep: seq<Sample>, x: Sample)
    requires Marks(m, ep)
    ensures var ep' := ep + [x];
      && (Progress(ep', |ep|) <==> Moved(m, x.degraded, x.recovered))
      && (forall i :: 0 <= i < |ep| ==> (Progress(ep', i) <==> Progress(ep, i)))
      && (!Progress(ep', |ep|) ==> Marks(m, ep'))
      && (Progress(ep', |ep|) ==> LastProgress(ep', |ep|))
  {
    var ep' := ep + [x];
    assert forall i :: 0 <= i < |ep| ==> ep'[i] == ep[i];
    forall i | 0 <= i < |ep| ensures Progress(ep', i) <==> Progress(ep, i) {}
    if m.Some? {
      var j :| 0 <= j < |ep| && ep[j].degraded == m.value.low;
      assert ep'[j].degraded == m.value.low;
      var p :| LastProgress(ep, p) && ep[p].now == m.value.moved;
      if !Progress(ep', |ep|) { assert LastProgress(ep', p); }
    }
  }

  /** Nothing moved for `limit` exactly when the last progress is that old. */
  lemma SinceLastProgress(ep: seq<Sample>, moved: real, now: real, limit: real)
    requires exists p :: LastProgress(ep, p) && ep[p].now == moved
    requires forall i, j :: 0 <= i < j < |ep| ==> ep[i].now <= ep[j].now
    ensures NothingMoved(ep, now, limit) <==> now - moved > limit
  {
    var p :| LastProgress(ep, p) && ep[p].now == moved;
    assert forall i :: 0 <= i < |ep| && Progress(ep, i) ==> i <= p;
  }

  /** The code's test and its new mark are right for an episode one sample longer. */
  lemma JudgedRight(m: Option<Mark>, ep: seq<Sample>, x: Sample, limit: real)
    requires Marks(m, ep) && limit >= 0.0
    requires forall i :: 0 <= i < |ep| ==> ep[i].now <= x.now
    requires forall i, j :: 0 <= i < j < |ep| ==> ep[i].now <= ep[j].now
    ensures Moved(m, x.degraded, x.recovered) ==>
      && Marks(Some(Mark(Lower(m, x.degraded), x.recovered, x.now)), ep + [x])
      && !NothingMoved(ep + [x], x.now, limit)
    ensures !Moved(m, x.degraded, x.recovered) ==>
      && Marks(m, ep + [x])
      && (NothingMoved(ep + [x], x.now, limit) <==> x.now - m.value.moved > limit)
  {
    var ep' := ep + [x];
    MarkStep(m, ep, x);
    if Moved(m, x.degraded, x.recovered) {
      assert ep'[|ep|] == x && Progress(ep', |ep|);
      if m.Some? && Lower(m, x.degraded) == m.value.low {
        var j :| 0 <= j < |ep| && ep[j].degraded == m.value.low;
        assert ep'[j].degraded == m.value.low;
      }
    } else {
      SinceLastProgress(ep', m.value.moved, x.now, limit);
    }
  }

  // ----- what that means for a run ----------------------------------------

  /** A poll that found every placement group Clean. */
  ghost predicate FoundClean(e: Event) { e.Poll? && e.pgs != [] && !SomeUnclean(e.pgs) }

  /** A poll that found one that is not. */
  ghost predicate FoundOut(e: Event) { e.Poll? && SomeUnclean(e.pgs) }

  ghost function NextEpisode(ep: seq<Sample>, e: Event): seq<Sample> {
    if FoundClean(e) then [] else if FoundOut(e) then ep + [SampleOf(e)] else ep
  }

  lemma EpisodeNext(h: seq<Event>, before: seq<Event>, e: Event)
    requires h == before + [e]
    ensures Episode(h) == NextEpisode(Episode(before), e)
  {
    EpisodeOn(before, e);
    if e.Poll? { KeptExactly(e.pgs); }
  }

  lemma Shorter(a: seq<Event>, b: seq<Event>, h: seq<Event>)
    returns (before: seq<Event>, last: Event, all: seq<Event>)
    requires h == a + b && b != []
    ensures b == before + [last] && h == all + [last] && all == a + before && last in b
    ensures forall x :: x in before ==> x in b
  {
    before, last := b[..|b| - 1], b[|b| - 1];
    all := a + before;
  }

  /** An episode begins anew at each poll that found all Clean. */
  lemma {:induction false} EpisodeBeginsAnew(a: seq<Event>, e: Event, b: seq<Event>, h: seq<Event>)
    requires FoundClean(e) && h == a + [e] + b
    ensures Episode(h) == Episode(b)
    decreases |b|
  {
    if b == [] {
      EpisodeNext(h, a, e);
    } else {
      var before, last, all := Shorter(a + [e], b, h);
      EpisodeBeginsAnew(a, e, before, all);
      EpisodeNext(b, before, last);
      EpisodeNext(h, all, last);
    }
  }

  lemma NextGoesOn(x: seq<Sample>, y: seq<Sample>, e: Event)
    requires !FoundClean(e)
    ensures NextEpisode(x + y, e) == x + NextEpisode(y, e)
  {
    if FoundOut(e) { assert x + y + [SampleOf(e)] == x + (y + [SampleOf(e)]); }
  }

  /** Until then it only grows. */
  lemma {:induction false} EpisodeGoesOn(a: seq<Event>, b: seq<Event>, h: seq<Event>)
    requires h == a + b && forall x :: x in b ==> !FoundClean(x)
    ensures Episode(h) == Episode(a) + Episode(b)
    decreases |b|
  {
    if b == [] {
      assert h == a;
    } else {
      var before, last, all := Shorter(a, b, h);
      EpisodeGoesOn(a, before, all);
      NextGoesOn(Episode(a), Episode(before), last);
      EpisodeNext(b, before, last);
      EpisodeNext(h, all, last);
    }
  }

  /** A poll that found a group out of Clean is one sample of it: the objects
      degraded in such groups. */
  lemma EpisodeOfOne(now: real, pgs: seq<Pg>, recovered: Option<int>)
    ensures Episode([Poll(now, pgs, recovered)]) ==
      if SomeUnclean(pgs) then [Sample(now, Degraded(OutOfClean(pgs)), recovered)] else []
    ensures Episode([OsdsDown(now)]) == []
  {
    EpisodeNext([Poll(now, pgs, recovered)], [], Poll(now, pgs, recovered));
    EpisodeNext([OsdsDown(now)], [], OsdsDown(now));
  }

  /** The mark is what its comment promises: the fewest objects degraded since
      the pool was last all Clean, the latest recovered count, and when
      something last moved; each follows from the episode alone. */
  lemma MarkIsDetermined(m: Mark, m': Mark, ep: seq<Sample>)
    requires Marks(Some(m), ep) && Marks(Some(m'), ep)
    ensures m == m'
  {
    var j :| 0 <= j < |ep| && ep[j].degraded == m.low;
    var j' :| 0 <= j' < |ep| && ep[j'].degraded == m'.low;
    var p :| LastProgress(ep, p) && ep[p].now == m.moved;
    var p' :| LastProgress(ep, p') && ep[p'].now == m'.moved;
  }
}
