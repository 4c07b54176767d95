/** The longest stretch without an acknowledged write, as the chaos and soak
    scripts track it phase by phase.

    A writer reads the clock before it takes the lock, so acknowledgements are
    processed in an order that need not be their order in time, and the last
    acknowledgement on record can go back. A history lists the events in the
    order the lock let them through. */
module WriteGap {

  datatype Event = Ack(t: real) | Report(t: real)

  function Max(a: real, b: real): real { if a >= b then a else b }

  /** `last_ok` after history `h`, begun at `start`. */
  function LastOk(start: real, h: seq<Event>): real {
    if h == [] then start else
    match h[|h| - 1]
    case Ack(t) => t
    case Report(_) => LastOk(start, h[..|h| - 1])
  }

  /** `gap` after `h`. */
  function Gap(start: real, h: seq<Event>): real {
    if h == [] then 0.0 else
    var before := h[..|h| - 1];
    match h[|h| - 1]
    case Ack(t) => Max(Gap(start, before), t - LastOk(start, before))
    case Report(_) => 0.0
  }

  /** What a report at `t` after `h` calls the longest gap. */
  function Reported(start: real, h: seq<Event>, t: real): real {
    Max(Gap(start, h), t - LastOk(start, h))
  }

  /** The largest gap any report of `h` gave. */
  function Longest(start: real, h: seq<Event>): real {
    if h == [] then 0.0 else
    var before := h[..|h| - 1];
    match h[|h| - 1]
    case Ack(_) => Longest(start, before)
    case Report(t) => Max(Longest(start, before), Reported(start, before, t))
  }

  /** The variables the writers share. */
  class GapTracker {
    var gap: real
    var lastOk: real
    ghost var start: real
    ghost var history: seq<Event>

    ghost predicate Valid()
      reads this
    {
      gap == Gap(start, history) && lastOk == LastOk(start, history)
    }

    constructor (now: real)
      ensures Valid() && start == now && history == []
    {
      gap, lastOk, start, history := 0.0, now, now, [];
    }

    method Acknowledge(now: real)
      requires Valid()
      modifies this
      ensures Valid() && start == old(start) && history == old(history) + [Ack(now)]
    {
      gap := Max(gap, now - lastOk);
      lastOk := now;
      history := history + [Ack(now)];
    }

    /** Reports a phase and starts the next; `alarm` when writes stopped too long. */
    method PhaseReport(now: real, maxGap: real) returns (longest: real, alarm: bool)
      requires Valid()
      modifies this
      ensures Valid() && start == old(start) && history == old(history) + [Report(now)]
      ensures longest == Reported(start, old(history), now)
      ensures alarm <==> longest > maxGap
    {
      longest := Max(gap, now - lastOk);
      gap := 0.0;
      alarm := longest > maxGap;
      history := history + [Report(now)];
    }
  }

  // ----- no true stretch is missed ----------------------------------------

  /** Some write was acknowledged at `t` (the start counts as one). */
  ghost predicate AckedAt(start: real, h: seq<Event>, t: real) {
    t == start || Ack(t) in h
  }

  /** Nothing was acknowledged between `u` and `v`. */
  ghost predicate Silent(start: real, h: seq<Event>, u: real, v: real) {
    forall t :: AckedAt(start, h, t) ==> t <= u || v <= t
  }

  lemma {:induction false} LastOkWasAcked(start: real, h: seq<Event>)
    ensures AckedAt(start, h, LastOk(start, h))
  {
    if h != [] {
      LastOkWasAcked(start, h[..|h| - 1]);
    }
  }

  lemma AckedEarlier(start: real, h: seq<Event>, t: real)
    requires h != []
    ensures AckedAt(start, h, t) <==> AckedAt(start, h[..|h| - 1], t) || h[|h| - 1] == Ack(t)
  {
    assert h == h[..|h| - 1] + [h[|h| - 1]];
  }

  /** A silent stretch that ended in an acknowledgement is in a report already
      made or in the gap the next report will include. */
  lemma {:induction false} StretchIsKept(start: real, h: seq<Event>, u: real, v: real, end: real)
    requires start <= u < v <= end && AckedAt(start, h, end) && Silent(start, h, u, v)
    ensures Max(Longest(start, h), Gap(start, h)) >= v - u
  {
    var before := h[..|h| - 1];
    forall t ensures AckedAt(start, h, t) <==> AckedAt(start, before, t) || h[|h| - 1] == Ack(t) {
      AckedEarlier(start, h, t);
    }
    LastOkWasAcked(start, before);
    if end' :| AckedAt(start, before, end') && v <= end' {
      StretchIsKept(start, before, u, v, end');
    }
  }

  /** Gap soundness: once the history ends in a report, some report's gap is at
      least every true stretch between acknowledgements next to each other in
      time, whatever order they were processed in and wherever phases ended. */
  lemma EveryStretchIsReported(start: real, h: seq<Event>, u: real, v: real)
    requires h != [] && h[|h| - 1].Report?
    requires forall t :: AckedAt(start, h, t) ==> start <= t
    requires AckedAt(start, h, u) && AckedAt(start, h, v) && u < v && Silent(start, h, u, v)
    ensures Longest(start, h) >= v - u
  {
    StretchIsKept(start, h, u, v, v);
  }

  /** The stretch still open at a report is in that report. */
  lemma OpenStretchIsReported(start: real, h: seq<Event>, u: real, now: real)
    requires forall t :: AckedAt(start, h, t) ==> t <= u
    ensures Reported(start, h, now) >= now - u
  {
    LastOkWasAcked(start, h);
  }

  // ----- and none is made up, exactly in time order -----------------------

  /** Nothing was processed late: every acknowledgement is at or after the time
      of each event, acknowledgement or report, processed before it. */
  ghost predicate InTimeOrder(start: real, h: seq<Event>) {
    && (forall i :: 0 <= i < |h| && h[i].Ack? ==> start <= h[i].t)
    && (forall i, j :: 0 <= i < j < |h| && h[j].Ack? ==> h[i].t <= h[j].t)
  }

  /** Every stretch the tracker measures, up to an acknowledgement or up to a
      report, happened: nothing in the whole history was acknowledged inside it. */
  ghost predicate StepsAreTrue(start: real, h: seq<Event>) {
    forall i :: 0 <= i < |h| && LastOk(start, h[..i]) < h[i].t ==> Silent(start, h, LastOk(start, h[..i]), h[i].t)
  }

  /** No two acknowledgements at one instant, nor one at the start. */
  ghost predicate Apart(start: real, h: seq<Event>) {
    && (forall i :: 0 <= i < |h| && h[i].Ack? ==> start < h[i].t)
    && (forall i, j :: 0 <= i < j < |h| && h[i].Ack? && h[j].Ack? ==> h[i].t != h[j].t)
  }

  lemma LastOkOn(start: real, h: seq<Event>, n: nat)
    requires n < |h|
    ensures LastOk(start, h[..n + 1]) == if h[n].Ack? then h[n].t else LastOk(start, h[..n])
  {
    assert h[..n + 1][..n] == h[..n];
  }

  lemma {:induction false} LastOkIsLatest(start: real, h: seq<Event>, n: nat)
    requires InTimeOrder(start, h) && n <= |h|
    ensures start <= LastOk(start, h[..n])
    ensures forall i :: 0 <= i < n && h[i].Ack? ==> h[i].t <= LastOk(start, h[..n])
  {
    if n > 0 {
      LastOkIsLatest(start, h, n - 1);
      LastOkOn(start, h, n - 1);
    }
  }

  lemma InOrderIsTrue(start: real, h: seq<Event>)
    requires InTimeOrder(start, h)
    ensures StepsAreTrue(start, h)
  {
    forall i | 0 <= i < |h| && LastOk(start, h[..i]) < h[i].t
      ensures Silent(start, h, LastOk(start, h[..i]), h[i].t)
    {
      LastOkIsLatest(start, h, i);
    }
  }

  /** The acknowledgements after the first `n` events are those after `LastOk`. */
  ghost predicate SplitAtLastOk(start: real, h: seq<Event>, n: nat)
    requires n <= |h|
  {
    && start <= LastOk(start, h[..n])
    && (forall i :: 0 <= i < n && h[i].Ack? ==> h[i].t <= LastOk(start, h[..n]))
    && (forall i :: n <= i < |h| && h[i].Ack? ==> LastOk(start, h[..n]) < h[i].t)
  }

  lemma {:induction false} TrueIsSplit(start: real, h: seq<Event>, n: nat)
    requires Apart(start, h) && StepsAreTrue(start, h) && n <= |h|
    ensures SplitAtLastOk(start, h, n)
  {
    if n > 0 {
      TrueIsSplit(start, h, n - 1);
      LastOkOn(start, h, n - 1);
      if h[n - 1].Ack? {
        forall i | n <= i < |h| && h[i].Ack? ensures h[n - 1].t < h[i].t {
          assert AckedAt(start, h, h[i].t);
        }
      }
    }
  }

  /** No stretch is made up exactly when nothing is processed late. */
  lemma TrueExactlyInOrder(start: real, h: seq<Event>)
    requires Apart(start, h)
    ensures StepsAreTrue(start, h) <==> InTimeOrder(start, h)
  {
    if InTimeOrder(start, h) { InOrderIsTrue(start, h); }
    if StepsAreTrue(start, h) {
      forall i, j | 0 <= i < j < |h| && h[j].Ack? ensures h[i].t <= h[j].t {
        TrueIsSplit(start, h, i);
        assert AckedAt(start, h, h[j].t);
      }
    }
  }

  /** Two acknowledgements at one instant are told apart by nothing the tracker
      sees: one may be processed late and no stretch be made up. */
  lemma TiesMayBeLate()
    ensures var h := [Ack(2.0), Ack(5.0), Ack(2.0)]; StepsAreTrue(0.0, h) && !InTimeOrder(0.0, h)
  {
    var h := [Ack(2.0), Ack(5.0), Ack(2.0)];
    assert h[..0] == [] && h[..1][..0] == [] && h[1].t > h[2].t;
    LastOkOn(0.0, h, 0);
    LastOkOn(0.0, h, 1);
  }

  /** A phase knows nothing of those before it but the last acknowledgement. */
  lemma {:induction false} PhaseStartsAnew(start: real, h: seq<Event>, t: real, acks: seq<Event>)
    requires forall i :: 0 <= i < |acks| ==> acks[i].Ack?
    ensures Gap(start, h + [Report(t)] + acks) == Gap(LastOk(start, h), acks)
    ensures LastOk(start, h + [Report(t)] + acks) == LastOk(LastOk(start, h), acks)
  {
    var all := h + [Report(t)] + acks;
    if acks == [] {
      assert all == h + [Report(t)] && all[..|h|] == h;
    } else {
      assert all[..|all| - 1] == h + [Report(t)] + acks[..|acks| - 1];
      PhaseStartsAnew(start, h, t, acks[..|acks| - 1]);
    }
  }

  /** The step to acknowledgement `i` of a phase, from the one processed before it. */
  ghost function Step(start: real, acks: seq<Event>, i: nat): real
    requires i < |acks|
  {
    acks[i].t - if i == 0 then start else acks[i - 1].t
  }

  /** Within a phase the gap is the largest step, in the order of processing: no step
      is larger, and it is one of them or 0. */
  lemma {:induction false} GapIsTheLargestStep(start: real, acks: seq<Event>)
    requires forall i :: 0 <= i < |acks| ==> acks[i].Ack?
    ensures forall i :: 0 <= i < |acks| ==> Step(start, acks, i) <= Gap(start, acks)
    ensures Gap(start, acks) == 0.0 || exists i :: 0 <= i < |acks| && Step(start, acks, i) == Gap(start, acks)
    ensures Gap(start, acks) >= 0.0
  {
    if acks != [] {
      var n := |acks| - 1;
      var before := acks[..n];
      GapIsTheLargestStep(start, before);
      assert LastOk(start, before) == if n == 0 then start else acks[n - 1].t;
      assert forall i :: 0 <= i < n ==> Step(start, acks, i) == Step(start, before, i);
      assert Gap(start, acks) == Max(Gap(start, before), Step(start, acks, n));
    }
  }

  /** The event at `i` is in the phase that a report at `n` ends. */
  ghost predicate InPhase(h: seq<Event>, i: nat, n: nat) {
    i < n <= |h| && forall j :: i < j < n ==> h[j].Ack?
  }

  /** With true steps, a gap on record is a stretch that happened, up to an
      acknowledgement of the phase. */
  lemma {:induction false} GapIsAStretch(start: real, h: seq<Event>, n: nat) returns (u: real, i: nat)
    requires StepsAreTrue(start, h) && n <= |h| && Gap(start, h[..n]) > 0.0
    ensures InPhase(h, i, n) && h[i].Ack? && h[i].t - u == Gap(start, h[..n])
    ensures AckedAt(start, h, u) && Silent(start, h, u, h[i].t)
  {
    assert h[..n][..n - 1] == h[..n - 1];
    var last, t := h[n - 1], LastOk(start, h[..n - 1]);
    LastOkWasAcked(start, h[..n - 1]);
    if last.t - t >= Gap(start, h[..n - 1]) {
      u, i := t, n - 1;
    } else {
      u, i := GapIsAStretch(start, h, n - 1);
    }
  }

  /** A report is at `v`. */
  ghost predicate ReportedAt(h: seq<Event>, v: real) { Report(v) in h }

  /** A stretch of the whole history: silent, from an acknowledgement to the next
      or to a report. */
  ghost predicate Happened(start: real, h: seq<Event>, u: real, v: real) {
    u < v && AckedAt(start, h, u) && (AckedAt(start, h, v) || ReportedAt(h, v)) && Silent(start, h, u, v)
  }

  /** With true steps, a positive gap reported is a stretch that happened, and that
      ended in the phase reported, or with the report. */
  lemma ReportedIsAStretch(start: real, h: seq<Event>, n: nat) returns (u: real, i: nat)
    requires StepsAreTrue(start, h) && n < |h| && h[n].Report? && Reported(start, h[..n], h[n].t) > 0.0
    ensures i == n || (InPhase(h, i, n) && h[i].Ack?)
    ensures h[i].t - u == Reported(start, h[..n], h[n].t) && Happened(start, h, u, h[i].t)
  {
    var t := LastOk(start, h[..n]);
    if Gap(start, h[..n]) >= h[n].t - t {
      u, i := GapIsAStretch(start, h, n);
    } else {
      LastOkWasAcked(start, h[..n]);
      u, i := t, n;
      assert ReportedAt(h, h[n].t);
    }
  }

  /** So is the longest any report gave, and `EveryStretchIsReported` says there
      is no longer one between acknowledgements. */
  lemma {:induction false} LongestIsAStretch(start: real, h: seq<Event>, n: nat) returns (u: real, v: real)
    requires StepsAreTrue(start, h) && n <= |h| && Longest(start, h[..n]) > 0.0
    ensures v - u == Longest(start, h[..n]) && Happened(start, h, u, v)
  {
    assert h[..n][..n - 1] == h[..n - 1];
    var before := h[..n - 1];
    if h[n - 1].Report? && Reported(start, before, h[n - 1].t) >= Longest(start, before) {
      var i;
      u, i := ReportedIsAStretch(start, h, n - 1);
      v := h[i].t;
    } else {
      u, v := LongestIsAStretch(start, h, n - 1);
    }
  }

  /** Out of order a gap can be overstated: writes acknowledged at 2, 10 and 11,
      the one at 10 processed before the one at 2, are reported as a gap of 10,
      from the start, though no stretch was longer than 8. */
  lemma LateProcessingOverstates()
    ensures var h := [Ack(10.0), Ack(2.0), Ack(11.0)];
      Reported(0.0, h, 11.0) == 10.0 &&
      forall u, v :: u < v && AckedAt(0.0, h, u) && AckedAt(0.0, h, v) && Silent(0.0, h, u, v) ==> v - u <= 8.0
  {
    var h := [Ack(10.0), Ack(2.0), Ack(11.0)];
    assert h[..2] == [Ack(10.0), Ack(2.0)] && h[..2][..1] == [Ack(10.0)] && h[..2][..1][..0] == [];
    assert LastOk(0.0, h[..2]) == 2.0;
    assert Gap(0.0, [Ack(10.0)]) == 10.0;
    assert Gap(0.0, h[..2]) == 10.0;
    forall u, v | u < v && AckedAt(0.0, h, u) && AckedAt(0.0, h, v) && Silent(0.0, h, u, v) ensures v - u <= 8.0 {
      assert AckedAt(0.0, h, 2.0) && AckedAt(0.0, h, 10.0);
    }
  }

  /** So can a stretch up to a report: a write acknowledged at 5 but processed
      after the report at 10 is inside the 10 reported. */
  lemma LateAfterReportOverstates()
    ensures var h := [Report(10.0), Ack(5.0)];
      && Apart(0.0, h) && Longest(0.0, h) == 10.0
      && forall u, v :: Happened(0.0, h, u, v) ==> v - u <= 5.0
  {
    var h := [Report(10.0), Ack(5.0)];
    assert h[..1] == [Report(10.0)] && h[..1][..0] == [];
    assert Longest(0.0, h[..1]) == 10.0;
    forall u, v | Happened(0.0, h, u, v) ensures v - u <= 5.0 {
      assert AckedAt(0.0, h, 5.0);
    }
  }
}
