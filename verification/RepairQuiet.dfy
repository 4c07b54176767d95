/** Waiting for repair to have nothing left to do, from two counters a gateway
    exports: repair passes, and shards rebuilt. */
module RepairQuiet {

  /** What one poll of the counters returned. */
  datatype Reading = NoAnswer | Counters(passes: int, work: int)

  /** Polls `i` and `j` show no shard rebuilt and two more passes. */
  ghost predicate QuietBetween(polls: seq<Reading>, i: int, j: int) {
    0 <= i < j < |polls| && polls[i].Counters? && polls[j].Counters? &&
    polls[i].work == polls[j].work && polls[j].passes >= polls[i].passes + 2
  }

  /** Poll `k` is the last one answered before `i`. */
  ghost predicate LastBefore(polls: seq<Reading>, k: int, i: int)
    requires i <= |polls|
  {
    0 <= k < i && polls[k].Counters? && forall m :: k < m < i ==> polls[m].NoAnswer?
  }

  /** The count of shards at poll `i` is another than at the poll answered before it. */
  ghost predicate Begins(polls: seq<Reading>, i: int) {
    0 <= i < |polls| && polls[i].Counters? && forall k :: LastBefore(polls, k, i) ==> polls[k].work != polls[i].work
  }

  /** From `i` to `j` no answered poll shows another count of shards, the first of
      them being `i`. */
  ghost predicate Steady(polls: seq<Reading>, i: int, j: int) {
    Begins(polls, i) && forall k :: i <= k < j && k < |polls| && polls[k].Counters? ==> polls[k].work == polls[i].work
  }

  lemma {:induction false} AnsweredBefore(polls: seq<Reading>, from: int, i: int) returns (k: int)
    requires 0 <= from < i <= |polls| && polls[from].Counters?
    ensures from <= k && LastBefore(polls, k, i)
    decreases i
  {
    if polls[i - 1].Counters? { k := i - 1; } else { k := AnsweredBefore(polls, from, i - 1); }
  }

  /** A steady stretch has one beginning. */
  lemma NoSecondBeginning(polls: seq<Reading>, i: int, i': int, j: int)
    requires Steady(polls, i, j) && i < i' < j <= |polls| && polls[i'].Counters?
    ensures !Begins(polls, i')
  {
    var k := AnsweredBefore(polls, i, i');
    assert LastBefore(polls, k, i') && polls[k].work == polls[i'].work;
  }

  /** Neither counter goes down. */
  ghost predicate Cumulative(polls: seq<Reading>) {
    forall i, j :: 0 <= i < j < |polls| && polls[i].Counters? && polls[j].Counters? ==>
      polls[i].passes <= polls[j].passes && polls[i].work <= polls[j].work
  }

  lemma {:induction false} BeginningOf(polls: seq<Reading>, i: int) returns (i': int)
    requires 0 <= i < |polls| && polls[i].Counters?
    ensures i' <= i && Steady(polls, i', i + 1)
    decreases i
  {
    if Begins(polls, i) {
      i' := i;
    } else {
      var k :| LastBefore(polls, k, i) && polls[k].work == polls[i].work;
      i' := BeginningOf(polls, k);
    }
  }

  /** With counters that do not go down, two polls as asked for are in a steady stretch. */
  lemma QuietIsSteady(polls: seq<Reading>, i: int, j: int) returns (i': int)
    requires Cumulative(polls) && QuietBetween(polls, i, j)
    ensures QuietBetween(polls, i', j) && Steady(polls, i', j)
  {
    i' := BeginningOf(polls, i);
    assert polls[i'].work == polls[i].work;
  }

  /** `await_repair_quiet`, given what its polls show until the deadline. The
      polls compared are `from` and `to`. */
  method AwaitRepairQuiet(polls: seq<Reading>) returns (quiet: bool, from: int, to: int)
    ensures quiet ==> QuietBetween(polls, from, to)
    ensures quiet <==> exists i, j :: QuietBetween(polls, i, j) && Steady(polls, i, j)
    ensures Cumulative(polls) ==> (quiet <==> exists i, j :: QuietBetween(polls, i, j))
  {
    if Cumulative(polls) && exists i, j :: QuietBetween(polls, i, j) {
      var i, j :| QuietBetween(polls, i, j);
      var i' := QuietIsSteady(polls, i, j);
    }
    var start := NoAnswer;
    from := -1;
    for n := 0 to |polls|
      invariant -1 <= from < n
      invariant from == -1 ==> start == NoAnswer && forall i :: 0 <= i < n ==> polls[i].NoAnswer?
      invariant from >= 0 ==> start.Counters? && polls[from] == start && Steady(polls, from, n)
      invariant forall i, j :: j < n && QuietBetween(polls, i, j) ==> !Steady(polls, i, j)
    {
      var now := polls[n];
      if now == NoAnswer {
        continue;
      }
      if start.NoAnswer? || now.work != start.work {
        from, start := n, now;
      } else if now.passes >= start.passes + 2 {
        assert QuietBetween(polls, from, n);
        return true, from, n;
      } else {
        NotQuietYet(polls, from, n);
      }
    }
    return false, from, |polls|;
  }

  lemma NotQuietYet(polls: seq<Reading>, from: int, n: int)
    requires 0 <= from < n < |polls| && Steady(polls, from, n) && !QuietBetween(polls, from, n)
    ensures forall i :: QuietBetween(polls, i, n) ==> !Steady(polls, i, n)
  {
    forall i | QuietBetween(polls, i, n) ensures !Steady(polls, i, n) {
      if from < i { NoSecondBeginning(polls, from, i, n); }
      if i < from && Steady(polls, i, n) { NoSecondBeginning(polls, i, from, n); }
    }
  }

  // ----- what the server did between two polls ----------------------------

  /** Repair works in passes, one at a time, and rebuilds only during a pass.
      `Look` is a poll, answered or not. */
  datatype Event = PassBegins | PassEnds | Rebuilds(shards: nat) | Look(answered: bool)

  datatype Server = Server(inPass: bool, begun: nat, ended: nat, rebuilt: nat)

  predicate Can(s: Server, e: Event) {
    match e
    case PassBegins => !s.inPass
    case PassEnds => s.inPass
    case Rebuilds(n) => s.inPass && n > 0
    case Look(_) => true
  }

  function Does(s: Server, e: Event): Server {
    match e
    case PassBegins => s.(inPass := true, begun := s.begun + 1)
    case PassEnds => s.(inPass := false, ended := s.ended + 1)
    case Rebuilds(n) => s.(rebuilt := s.rebuilt + n)
    case Look(_) => s
  }

  /** The server after the first `n` events. */
  function At(s: Server, events: seq<Event>, n: nat): Server
    requires n <= |events|
  {
    if n == 0 then s else Does(At(s, events, n - 1), events[n - 1])
  }

  ghost predicate CanHappenAt(s: Server, events: seq<Event>, n: nat)
    requires n < |events|
  {
    Can(At(s, events, n), events[n])
  }

  ghost predicate CanHappen(s: Server, events: seq<Event>) {
    forall n :: 0 <= n < |events| ==> CanHappenAt(s, events, n)
  }

  /** The counters, with passes counted when they begin or when they end. */
  function Exported(s: Server, countedAtStart: bool): Reading {
    Counters(if countedAtStart then s.begun else s.ended, s.rebuilt)
  }

  /** What polling shows: one reading per event, no answer where no poll was. */
  function Polls(s: Server, events: seq<Event>, countedAtStart: bool): (polls: seq<Reading>)
    ensures |polls| == |events|
    ensures forall n :: 0 <= n < |events| ==>
      polls[n] == if events[n] == Look(true) then Exported(At(s, events, n), countedAtStart) else NoAnswer
  {
    seq(|events|, n requires 0 <= n < |events| =>
      if events[n] == Look(true) then Exported(At(s, events, n), countedAtStart) else NoAnswer)
  }

  lemma {:induction false} CountersGrow(s: Server, events: seq<Event>, i: nat, j: nat)
    requires i <= j <= |events|
    ensures At(s, events, i).begun <= At(s, events, j).begun
    ensures At(s, events, i).ended <= At(s, events, j).ended
    ensures At(s, events, i).rebuilt <= At(s, events, j).rebuilt
    decreases j
  {
    if i < j { CountersGrow(s, events, i, j - 1); }
  }

  lemma PollsAreCumulative(s: Server, events: seq<Event>, countedAtStart: bool)
    ensures Cumulative(Polls(s, events, countedAtStart))
  {
    var polls := Polls(s, events, countedAtStart);
    forall i, j | 0 <= i < j < |polls| && polls[i].Counters? && polls[j].Counters?
      ensures polls[i].passes <= polls[j].passes && polls[i].work <= polls[j].work
    {
      CountersGrow(s, events, i, j);
    }
  }

  /** A pass begins at event `a` and ends at event `b`. */
  ghost predicate WholePass(events: seq<Event>, a: int, b: int) {
    0 <= a < b < |events| && events[a].PassBegins? && events[b].PassEnds? &&
    forall i :: a < i < b ==> !events[i].PassBegins? && !events[i].PassEnds?
  }

  ghost predicate NothingRebuilt(events: seq<Event>, from: int, to: int) {
    forall i :: 0 <= from <= i < to <= |events| ==> !events[i].Rebuilds?
  }

  /** With no whole pass between `from` and `to`, each count rises by at most one. */
  lemma FindPass(s: Server, events: seq<Event>, from: nat, upto: nat) returns (found: bool, a: int, b: int)
    requires from <= upto <= |events| && CanHappen(s, events)
    ensures found ==> from <= a && b < upto && WholePass(events, a, b)
    ensures !found ==>
      && At(s, events, upto).begun <= At(s, events, from).begun + 1
      && At(s, events, upto).ended <= At(s, events, from).ended + 1
  {
    found, a, b := false, -1, -1;
    var first := At(s, events, from);
    for i := from to upto
      invariant a == -1 ==>
        && At(s, events, i).begun == first.begun
        && (if At(s, events, i).inPass then At(s, events, i).ended == first.ended
            else At(s, events, i).ended <= first.ended + 1)
      invariant a != -1 ==>
        && from <= a < i && events[a].PassBegins? && At(s, events, i).inPass
        && (forall n :: a < n < i ==> !events[n].PassBegins? && !events[n].PassEnds?)
        && At(s, events, i).begun == first.begun + 1 && At(s, events, i).ended <= first.ended + 1
    {
      assert CanHappenAt(s, events, i);
      if events[i].PassBegins? {
        a := i;
      } else if events[i].PassEnds? && a != -1 {
        return true, a, i;
      }
    }
  }

  lemma {:induction false} SameWorkNothingRebuilt(s: Server, events: seq<Event>, from: nat, upto: nat)
    requires from <= upto <= |events| && CanHappen(s, events)
    requires At(s, events, from).rebuilt == At(s, events, upto).rebuilt
    ensures NothingRebuilt(events, from, upto)
    decreases upto
  {
    if upto > from {
      CountersGrow(s, events, from, upto - 1);
      assert CanHappenAt(s, events, upto - 1);
      SameWorkNothingRebuilt(s, events, from, upto - 1);
    }
  }

  /** When the wait says quiet, one whole pass began and ended between the two
      polls it compared and nothing was rebuilt between them, whichever end of
      a pass the counter counts. */
  lemma QuietMeansAnIdlePass(s: Server, events: seq<Event>, countedAtStart: bool, from: int, to: int)
    returns (a: int, b: int)
    requires CanHappen(s, events)
    requires QuietBetween(Polls(s, events, countedAtStart), from, to)
    ensures from <= a && b < to && WholePass(events, a, b)
    ensures NothingRebuilt(events, from, to)
  {
    var found: bool;
    found, a, b := FindPass(s, events, from, to);
    SameWorkNothingRebuilt(s, events, from, to);
  }

  /** The wait ends as soon as it can be sure: two whole idle passes between
      two polls are always enough. */
  lemma {:induction false} IdlePassesAreSeen(
    s: Server, events: seq<Event>, countedAtStart: bool, i: nat, j: nat, a: int, b: int, a': int, b': int)
    requires CanHappen(s, events) && i < a < b < a' < b' < j < |events|
    requires events[i] == Look(true) && events[j] == Look(true)
    requires WholePass(events, a, b) && WholePass(events, a', b') && NothingRebuilt(events, i, j)
    ensures QuietBetween(Polls(s, events, countedAtStart), i, j)
  {
    CountersGrow(s, events, i, a);
    CountersGrow(s, events, a + 1, b);
    CountersGrow(s, events, b + 1, a');
    CountersGrow(s, events, a' + 1, b');
    CountersGrow(s, events, b' + 1, j);
    WorkStands(s, events, i, j);
  }

  lemma {:induction false} WorkStands(s: Server, events: seq<Event>, from: nat, upto: nat)
    requires from <= upto <= |events| && NothingRebuilt(events, from, upto)
    ensures At(s, events, from).rebuilt == At(s, events, upto).rebuilt
    decreases upto
  {
    if upto > from {
      assert !events[upto - 1].Rebuilds?;
      WorkStands(s, events, from, upto - 1);
    }
  }
}
