/** The soak's readers, checking keys against the oracle while writers go on.

    `check_one` snapshots the outcomes a key allows, reads the key, and looks at
    what is allowed again, three times over. How wrong it can be is bounded by
    how many operations raced it. */
module SoakCheck {
  import opened Basics
  import opened SoakOracle

  datatype Reading = Shown(outcome: Outcome) | Failed(status: nat)

  datatype Verdict = Fine | Wrong(reading: Reading)

  predicate Allowed(r: Reading, outcomes: set<Outcome>) {
    r.Shown? && r.outcome in outcomes
  }

  /** Each reading is disallowed by the look before it (first the snapshot) and
      by the look after it. */
  ghost predicate AlwaysWrong(allowed: set<Outcome>, got: seq<Reading>, now: seq<set<Outcome>>)
    requires |got| == |now|
    decreases |got|
  {
    got != [] ==>
      !Allowed(got[0], allowed) && !Allowed(got[0], now[0]) && AlwaysWrong(now[0], got[1..], now[1..])
  }

  /** Read `j` failed, or showed an outcome allowed neither before it, at the last look,
      nor after. */
  ghost predicate WrongAt(snapshot: set<Outcome>, got: seq<Reading>, now: seq<set<Outcome>>, j: nat)
    requires j < |got| == |now|
  {
    got[j].Failed? ||
    (got[j].outcome !in (if j == 0 then snapshot else now[j - 1]) && got[j].outcome !in now[j])
  }

  lemma {:induction false} AlwaysWrongMeans(snapshot: set<Outcome>, got: seq<Reading>, now: seq<set<Outcome>>)
    requires |got| == |now|
    ensures AlwaysWrong(snapshot, got, now) <==> forall j :: 0 <= j < |got| ==> WrongAt(snapshot, got, now, j)
    decreases |got|
  {
    if got != [] {
      var got', now' := got[1..], now[1..];
      AlwaysWrongMeans(now[0], got', now');
      forall j | 0 <= j < |got'| ensures WrongAt(now[0], got', now', j) <==> WrongAt(snapshot, got, now, j + 1) {
        assert got'[j] == got[j + 1] && now'[j] == now[j + 1];
      }
      if forall j :: 0 <= j < |got| ==> WrongAt(snapshot, got, now, j) {
        forall j | 0 <= j < |got'| ensures WrongAt(now[0], got', now', j) {
          assert WrongAt(snapshot, got, now, j + 1);
        }
        assert WrongAt(snapshot, got, now, 0);
      }
      if AlwaysWrong(snapshot, got, now) {
        forall j | 0 <= j < |got| ensures WrongAt(snapshot, got, now, j) {
          assert j > 0 ==> WrongAt(now[0], got', now', j - 1);
        }
      }
    }
  }

  /** `check_one`: `got[j]` is what its j-th read shows and `now[j]` the outcomes
      allowed right after it. */
  method CheckOne(snapshot: set<Outcome>, got: seq<Reading>, now: seq<set<Outcome>>) returns (v: Verdict)
    requires |got| == |now| == 3
    ensures v.Wrong? <==> AlwaysWrong(snapshot, got, now)
    ensures v.Wrong? <==> forall j :: 0 <= j < 3 ==> WrongAt(snapshot, got, now, j)
    ensures v.Wrong? ==> v.reading == got[2]
  {
    AlwaysWrongMeans(snapshot, got, now);
    var allowed := snapshot;
    for j := 0 to 3
      invariant AlwaysWrong(snapshot, got, now) <==> AlwaysWrong(allowed, got[j..], now[j..])
    {
      if Allowed(got[j], allowed) || Allowed(got[j], now[j]) {
        return Fine;
      }
      assert got[j..][1..] == got[j + 1..] && now[j..][1..] == now[j + 1..];
      allowed := now[j];
    }
    return Wrong(got[2]);
  }

  // ----- a check during a run ---------------------------------------------

  /** One pass of the loop: the steps others take between the snapshot and the
      read, and between the read and the next look. */
  datatype Round = Round(before: seq<Action>, after: seq<Action>)

  predicate LegalRound(s: State, r: Round) {
    Legal(s, r.before) && Legal(After(s, r.before), r.after)
  }

  function RoundEnd(s: State, r: Round): State
    requires LegalRound(s, r)
  {
    After(After(s, r.before), r.after)
  }

  predicate LegalRounds(s: State, rounds: seq<Round>)
    decreases |rounds|
  {
    rounds != [] ==> LegalRound(s, rounds[0]) && LegalRounds(RoundEnd(s, rounds[0]), rounds[1..])
  }

  /** What the reads of `k` show, the store answering them. */
  function Readings(s: State, rounds: seq<Round>, k: Key): (got: seq<Reading>)
    requires LegalRounds(s, rounds)
    ensures |got| == |rounds|
    decreases |rounds|
  {
    if rounds == [] then [] else
    [Shown(Now(After(s, rounds[0].before), k))] + Readings(RoundEnd(s, rounds[0]), rounds[1..], k)
  }

  function AllowedBy(s: State, k: Key): set<Outcome> {
    if k in s.allows then s.allows[k] else {}
  }

  /** What is allowed at the end of each round. */
  function Looks(s: State, rounds: seq<Round>, k: Key): (now: seq<set<Outcome>>)
    requires LegalRounds(s, rounds)
    ensures |now| == |rounds|
    decreases |rounds|
  {
    if rounds == [] then [] else
    var e := RoundEnd(s, rounds[0]);
    [AllowedBy(e, k)] + Looks(e, rounds[1..], k)
  }

  predicate StartsOn(s: State, a: Action, k: Key)
    requires Enabled(s, a)
  {
    (a.SendPut? || a.SendOverwrite? || a.SendDelete?) && Started(s, a).key == k
  }

  /** How many operations on `k` start during `run`. */
  function Starts(s: State, run: seq<Action>, k: Key): nat
    requires Legal(s, run)
    decreases |run|
  {
    if run == [] then 0
    else (if StartsOn(s, run[0], k) then 1 else 0) + Starts(Step(s, run[0]), run[1..], k)
  }

  function RoundStarts(s: State, r: Round, k: Key): nat
    requires LegalRound(s, r)
  {
    Starts(s, r.before, k) + Starts(After(s, r.before), r.after, k)
  }

  function TotalStarts(s: State, rounds: seq<Round>, k: Key): nat
    requires LegalRounds(s, rounds)
    decreases |rounds|
  {
    if rounds == [] then 0
    else RoundStarts(s, rounds[0], k) + TotalStarts(RoundEnd(s, rounds[0]), rounds[1..], k)
  }

  // ----- two operations race every wrong reading --------------------------

  /** Whatever operation is in flight on `k` leaves `o`. */
  ghost predicate InFlightLeaves(s: State, k: Key, o: Outcome) {
    forall w :: 0 <= w < |s.writers| && !s.writers[w].phase.Idle? && s.writers[w].phase.op.key == k ==>
      s.writers[w].phase.op.leaves == o
  }

  lemma QuietStep(s: State, a: Action, k: Key, o: Outcome)
    requires Inv(s) && Enabled(s, a) && k in s.allows && !StartsOn(s, a, k)
    ensures k in Step(s, a).allows
    ensures o !in s.allows[k] ==> o !in Step(s, a).allows[k]
    ensures o in s.allows[k] && InFlightLeaves(s, k, o) ==>
      o in Step(s, a).allows[k] && InFlightLeaves(Step(s, a), k, o)
  {
    if a != TakeTouched { assert WriterOk(s, a.w); }
  }

  lemma {:induction false} QuietRun(s: State, run: seq<Action>, k: Key, o: Outcome)
    requires Inv(s) && Legal(s, run) && k in s.allows && Starts(s, run, k) == 0
    ensures k in After(s, run).allows
    ensures o !in s.allows[k] ==> o !in After(s, run).allows[k]
    ensures o in s.allows[k] && InFlightLeaves(s, k, o) ==>
      o in After(s, run).allows[k] && InFlightLeaves(After(s, run), k, o)
    decreases |run|
  {
    if run != [] {
      QuietStep(s, run[0], k, o);
      StepKeeps(s, run[0]);
      QuietRun(Step(s, run[0]), run[1..], k, o);
    }
  }

  /** An operation begun when nothing else is in flight on its key. */
  lemma StartStep(s: State, a: Action, k: Key, o: Outcome)
    requires Inv(s) && Enabled(s, a) && k in s.allows && StartsOn(s, a, k) && o !in s.allows[k]
    ensures k in Step(s, a).allows
    ensures o in Step(s, a).allows[k] ==> InFlightLeaves(Step(s, a), k, o)
  {
    assert WriterOk(s, a.w);
    if !a.SendPut? { assert k in s.writers[a.w].mine; }
    assert k.writer == a.w;
    forall w | 0 <= w < |s.writers| && w != a.w && !s.writers[w].phase.Idle?
      ensures s.writers[w].phase.op.key != k
    {
      assert WriterOk(s, w);
    }
  }

  /** An outcome let in by a run with one start on the key came with that
      start, and only that operation can be in flight. */
  lemma {:induction false} OneStart(s: State, run: seq<Action>, k: Key, o: Outcome)
    requires Inv(s) && Legal(s, run) && k in s.allows && o !in s.allows[k]
    requires Starts(s, run, k) == 1
    ensures k in After(s, run).allows
    ensures o in After(s, run).allows[k] ==> InFlightLeaves(After(s, run), k, o)
    decreases |run|
  {
    var s' := Step(s, run[0]);
    StepKeeps(s, run[0]);
    if StartsOn(s, run[0], k) {
      StartStep(s, run[0], k, o);
      QuietRun(s', run[1..], k, o);
    } else {
      QuietStep(s, run[0], k, o);
      OneStart(s', run[1..], k, o);
    }
  }

  lemma {:induction false} KeysStay(s: State, run: seq<Action>, k: Key)
    requires Legal(s, run) && k in s.allows
    ensures k in After(s, run).allows
    decreases |run|
  {
    if run != [] { KeysStay(Step(s, run[0]), run[1..], k); }
  }

  /** A reading wrong before and after takes two operations between the looks. */
  lemma WrongReadingNeedsTwo(s: State, r: Round, k: Key)
    requires Inv(s) && LegalRound(s, r) && k in s.allows
    ensures k in RoundEnd(s, r).allows && Inv(RoundEnd(s, r))
    ensures var got := Now(After(s, r.before), k);
      got !in s.allows[k] && got !in RoundEnd(s, r).allows[k] ==> RoundStarts(s, r, k) >= 2
  {
    var mid := After(s, r.before);
    var got := Now(mid, k);
    RunKeeps(s, r.before);
    RunKeeps(mid, r.after);
    KeysStay(s, r.before, k);
    KeysStay(mid, r.after, k);
    if got !in s.allows[k] && RoundStarts(s, r, k) < 2 {
      assert got in mid.allows[k];
      if Starts(s, r.before, k) == 0 {
        QuietRun(s, r.before, k, got);
      } else {
        OneStart(s, r.before, k, got);
        QuietRun(mid, r.after, k, got);
      }
    }
  }

  ghost predicate TwoEachRound(s: State, rounds: seq<Round>, k: Key)
    requires LegalRounds(s, rounds)
    decreases |rounds|
  {
    rounds != [] ==> RoundStarts(s, rounds[0], k) >= 2 && TwoEachRound(RoundEnd(s, rounds[0]), rounds[1..], k)
  }

  /** The false-alarm bound: on a truthful store, a key reported wrong had two
      operations started on it in every round, so six in `check_one`'s three. */
  lemma {:induction false} FalseAlarmNeedsSix(s: State, rounds: seq<Round>, k: Key)
    requires Inv(s) && LegalRounds(s, rounds) && k in s.allows
    requires AlwaysWrong(s.allows[k], Readings(s, rounds, k), Looks(s, rounds, k))
    ensures TwoEachRound(s, rounds, k)
    ensures TotalStarts(s, rounds, k) >= 2 * |rounds|
    ensures |rounds| == 3 ==> TotalStarts(s, rounds, k) >= 6
    decreases |rounds|
  {
    if rounds != [] {
      WrongReadingNeedsTwo(s, rounds[0], k);
      ReadOn(s, rounds, k);
      FalseAlarmNeedsSix(RoundEnd(s, rounds[0]), rounds[1..], k);
    }
  }

  lemma ReadOn(s: State, rounds: seq<Round>, k: Key)
    requires LegalRounds(s, rounds) && rounds != []
    ensures var e := RoundEnd(s, rounds[0]);
      && Readings(s, rounds, k)[0] == Shown(Now(After(s, rounds[0].before), k))
      && Readings(s, rounds, k)[1..] == Readings(e, rounds[1..], k)
      && Looks(s, rounds, k)[0] == AllowedBy(e, k)
      && Looks(s, rounds, k)[1..] == Looks(e, rounds[1..], k)
  {
  }

  // ----- a key no operation touches ---------------------------------------

  lemma {:induction false} Untouched(s: State, run: seq<Action>, k: Key)
    requires Legal(s, run) && Starts(s, run, k) == 0 && k in s.allows
    requires forall w :: 0 <= w < |s.writers| && !s.writers[w].phase.Idle? ==> s.writers[w].phase.op.key != k
    ensures var e := After(s, run);
      && k in e.allows && e.allows[k] == s.allows[k] && Now(e, k) == Now(s, k)
      && forall w :: 0 <= w < |e.writers| && !e.writers[w].phase.Idle? ==> e.writers[w].phase.op.key != k
    decreases |run|
  {
    if run != [] { Untouched(Step(s, run[0]), run[1..], k); }
  }

  /** With nothing in flight on a key and nothing started, a check reports it
      exactly when what is stored is not allowed, whatever the store did. */
  lemma {:induction false} StillKeysAreJudgedRight(s: State, rounds: seq<Round>, k: Key)
    requires LegalRounds(s, rounds) && rounds != [] && k in s.allows && TotalStarts(s, rounds, k) == 0
    requires forall w :: 0 <= w < |s.writers| && !s.writers[w].phase.Idle? ==> s.writers[w].phase.op.key != k
    ensures AlwaysWrong(s.allows[k], Readings(s, rounds, k), Looks(s, rounds, k)) <==> Now(s, k) !in s.allows[k]
    decreases |rounds|
  {
    var r := rounds[0];
    Untouched(s, r.before, k);
    Untouched(After(s, r.before), r.after, k);
    ReadOn(s, rounds, k);
    if |rounds| > 1 {
      StillKeysAreJudgedRight(RoundEnd(s, r), rounds[1..], k);
    }
  }

  // ----- the bound is reached ---------------------------------------------

  /** One writer, between operations, with one object. */
  ghost predicate OneObject(s: State, k: Key) {
    && |s.writers| == 1 && s.writers[0].phase.Idle? && s.writers[0].mine == [k] && k.writer == 0
    && k in s.allows
  }

  /** And its contents are known. */
  ghost predicate Settled(s: State, k: Key, d: nat) { OneObject(s, k) && s.allows[k] == {Object(d)} }

  function Sent(a: Action): seq<nat> {
    match a
    case SendPut(_, d) => [d]
    case SendOverwrite(_, _, d) => [d]
    case _ => []
  }

  /** The digests of the bodies a run sends, in order. */
  function Sends(run: seq<Action>): seq<nat> { if run == [] then [] else Sent(run[0]) + Sends(run[1..]) }

  lemma RaceStep(s: State, a: Action, run: seq<Action>)
    requires Enabled(s, a) && Legal(Step(s, a), run)
    ensures Legal(s, [a] + run)
    ensures After(s, [a] + run) == After(Step(s, a), run)
    ensures forall k :: Starts(s, [a] + run, k) == (if StartsOn(s, a, k) then 1 else 0) + Starts(Step(s, a), run, k)
  {
    assert ([a] + run)[1..] == run;
  }

  /** An acknowledged overwrite with `d`: `send` until it lands, `rest` after. */
  ghost predicate Overwrites(s: State, send: seq<Action>, rest: seq<Action>, k: Key, d: nat) {
    && Legal(s, send) && Legal(After(s, send), rest)
    && Starts(s, send, k) == 1 && Starts(After(s, send), rest, k) == 0
    && Now(After(s, send), k) == Object(d)
    && OneObject(After(After(s, send), rest), k) && After(After(s, send), rest).allows[k] == {Object(d)}
  }

  lemma WholeOverwrite(s: State, k: Key, d: nat)
    requires OneObject(s, k)
    ensures Overwrites(s, [SendOverwrite(0, 0, d), Apply(0)], [Answer(0, true), Settle(0)], k, d)
  {
    var a1, a2, a3, a4 := SendOverwrite(0, 0, d), Apply(0), Answer(0, true), Settle(0);
    var s1 := Step(s, a1);
    var s2 := Step(s1, a2);
    RaceStep(s1, a2, []);
    RaceStep(s, a1, [a2]);
    assert [a1] + [a2] == [a1, a2];
    var s3 := Step(s2, a3);
    RaceStep(s3, a4, []);
    RaceStep(s2, a3, [a4]);
    assert [a3] + [a4] == [a3, a4];
  }

  lemma {:induction false} RunsJoin(s: State, a: seq<Action>, b: seq<Action>, k: Key)
    requires Legal(s, a) && Legal(After(s, a), b)
    ensures Legal(s, a + b) && After(s, a + b) == After(After(s, a), b)
    ensures Starts(s, a + b, k) == Starts(s, a, k) + Starts(After(s, a), b, k)
    decreases |a|
  {
    if a == [] {
      assert a + b == b;
    } else {
      assert (a + b)[0] == a[0] && (a + b)[1..] == a[1..] + b;
      RunsJoin(Step(s, a[0]), a[1..], b, k);
    }
  }

  /** A round with two operations on a settled key, read between them. */
  ghost predicate Fools(s: State, r: Round, k: Key, d: nat, e: nat) {
    && LegalRound(s, r) && RoundStarts(s, r, k) == 2
    && Now(After(s, r.before), k) == Object(d)
    && Settled(RoundEnd(s, r), k, e)
  }

  /** Two overwrites, the first read as it lands. */
  lemma TwoOverwritesFool(
    s: State, a: seq<Action>, b: seq<Action>, a': seq<Action>, b': seq<Action>, k: Key, d: nat, e: nat)
    requires Overwrites(s, a, b, k, d) && Overwrites(After(After(s, a), b), a', b', k, e)
    ensures Fools(s, Round(a, b + (a' + b')), k, d, e)
  {
    RunsJoin(After(After(s, a), b), a', b', k);
    RunsJoin(After(s, a), b, a' + b', k);
  }

  /** An overwrite read just after it lands, then another before the next look. */
  lemma RaceFools(s: State, k: Key, d: nat, e: nat) returns (r: Round)
    requires OneObject(s, k)
    ensures Fools(s, r, k, d, e) && Sends(r.before) + Sends(r.after) == [d, e]
  {
    var first, second := [SendOverwrite(0, 0, d), Apply(0)], [SendOverwrite(0, 0, e), Apply(0)];
    var rest := [Answer(0, true), Settle(0)];
    WholeOverwrite(s, k, d);
    WholeOverwrite(After(After(s, first), rest), k, e);
    TwoOverwritesFool(s, first, rest, second, rest, k, d, e);
    r := Round(first, rest + (second + rest));
    RaceSends(d, e);
  }

  lemma {:induction false} SendsJoined(a: seq<Action>, b: seq<Action>)
    ensures Sends(a + b) == Sends(a) + Sends(b)
  {
    if a == [] {
      assert a + b == b;
    } else {
      assert (a + b)[1..] == a[1..] + b;
      SendsJoined(a[1..], b);
      Regroup(Sent(a[0]), Sends(a[1..]), Sends(b));
    }
  }

  lemma SendsTwo(a: Action, b: Action)
    ensures Sends([a, b]) == Sent(a) + Sent(b)
  {
    assert [a, b][1..] == [b] && [b][1..] == [];
    assert Sends([b]) == Sent(b) + [];
  }

  lemma RaceSends(d: nat, e: nat)
    ensures var rest := [Answer(0, true), Settle(0)];
      Sends([SendOverwrite(0, 0, d), Apply(0)]) == [d] &&
      Sends(rest + ([SendOverwrite(0, 0, e), Apply(0)] + rest)) == [e]
  {
    var rest := [Answer(0, true), Settle(0)];
    var second := [SendOverwrite(0, 0, e), Apply(0)];
    SendsTwo(Answer(0, true), Settle(0));
    SendsTwo(SendOverwrite(0, 0, d), Apply(0));
    SendsTwo(SendOverwrite(0, 0, e), Apply(0));
    SendsJoined(second, rest);
    SendsJoined(rest, second + rest);
  }

  /** The check reports `k` after `rounds`, in which `n` operations started on it. */
  ghost predicate Reported(s: State, rounds: seq<Round>, k: Key, n: nat) {
    && k in s.allows && LegalRounds(s, rounds)
    && AlwaysWrong(s.allows[k], Readings(s, rounds, k), Looks(s, rounds, k))
    && TotalStarts(s, rounds, k) == n
  }

  lemma FoolsAgain(s: State, r: Round, rounds: seq<Round>, k: Key, n: nat, c: nat, d: nat, e: nat)
    requires c != d && d != e
    requires Settled(s, k, c) && Fools(s, r, k, d, e) && Reported(RoundEnd(s, r), rounds, k, n)
    ensures Reported(s, [r] + rounds, k, n + 2)
  {
    assert ([r] + rounds)[1..] == rounds;
    ReadOn(s, [r] + rounds, k);
  }

  /** No two generations of the key have one digest. */
  ghost predicate NoCollision(digest: nat -> nat) {
    forall i: nat, j: nat :: digest(i) == digest(j) ==> i == j
  }

  function SendsIn(rounds: seq<Round>): seq<nat> {
    if rounds == [] then [] else Sends(rounds[0].before) + Sends(rounds[0].after) + SendsIn(rounds[1..])
  }

  /** The digests of the `2 * n` generations after `g`. */
  function Generations(digest: nat -> nat, g: nat, n: nat): seq<nat>
    decreases n
  {
    if n == 0 then [] else [digest(g + 1), digest(g + 2)] + Generations(digest, g + 2, n - 1)
  }

  /** Two overwrites a round, each with the key's next body, have a good key
      reported after any number of rounds. */
  lemma {:induction false} FoolsEveryRound(s: State, digest: nat -> nat, k: Key, g: nat, n: nat)
    returns (rounds: seq<Round>)
    requires NoCollision(digest) && Settled(s, k, digest(g))
    ensures |rounds| == n && SendsIn(rounds) == Generations(digest, g, n)
    ensures Reported(s, rounds, k, 2 * n)
    decreases n
  {
    if n == 0 {
      rounds := [];
    } else {
      var r := RaceFools(s, k, digest(g + 1), digest(g + 2));
      var more := FoolsEveryRound(RoundEnd(s, r), digest, k, g + 2, n - 1);
      FoolsAgain(s, r, more, k, 2 * (n - 1), digest(g), digest(g + 1), digest(g + 2));
      rounds := [r] + more;
      assert rounds[1..] == more;
    }
  }

  /** The bound cannot be raised: six operations in the check's three rounds
      are enough to have a good key reported. */
  lemma SixCanFoolTheCheck(s: State, k: Key, digest: nat -> nat, g: nat) returns (rounds: seq<Round>)
    requires NoCollision(digest) && Settled(s, k, digest(g))
    ensures |rounds| == 3 && SendsIn(rounds) == Generations(digest, g, 3) && Reported(s, rounds, k, 6)
  {
    rounds := FoolsEveryRound(s, digest, k, g, 3);
  }

  /** A run gets there: the first writer's first put, acknowledged. */
  lemma SettledIsReachable(d: nat)
    ensures var run := [SendPut(0, d), Apply(0), Answer(0, true), Settle(0)];
      Legal(Init(1), run) && Settled(After(Init(1), run), Key(0, 1), d)
  {
    var a1, a2, a3, a4 := SendPut(0, d), Apply(0), Answer(0, true), Settle(0);
    var s1 := Step(Init(1), a1);
    var s2 := Step(s1, a2);
    var s3 := Step(s2, a3);
    var s4 := Step(s3, a4);
    RaceStep(s3, a4, []);
    RaceStep(s2, a3, [a4]);
    RaceStep(s1, a2, [a3, a4]);
    RaceStep(Init(1), a1, [a2, a3, a4]);
    assert [a3] + [a4] == [a3, a4] && [a2] + [a3, a4] == [a2, a3, a4];
    assert [a1] + [a2, a3, a4] == [a1, a2, a3, a4];
    assert Settled(s4, Key(0, 1), d);
  }

  // ----- the listing ------------------------------------------------------

  /** `check_listing`: keys that must be listed and are not, and keys listed
      that may not be. */
  function Missing(s: State, listed: set<Key>): set<Key> {
    (set k | k in s.allows && Gone !in s.allows[k]) - listed
  }

  function Extra(s: State, listed: set<Key>): set<Key> {
    listed - set k | k in s.allows && s.allows[k] - {Gone} != {}
  }

  /** A listing passes exactly when every key it names may be there and every key it
      does not may be gone. */
  lemma PassesExactly(s: State, listed: set<Key>)
    ensures Missing(s, listed) == {} && Extra(s, listed) == {} <==>
      && (forall k :: k in listed ==> k in s.allows && exists d :: Object(d) in s.allows[k])
      && (forall k :: k in s.allows && k !in listed ==> Gone in s.allows[k])
  {
    forall k | k in s.allows ensures s.allows[k] - {Gone} != {} <==> exists d :: Object(d) in s.allows[k] {
      if s.allows[k] - {Gone} != {} {
        var o :| o in s.allows[k] - {Gone};
        assert Object(o.digest) in s.allows[k];
      }
      if d :| Object(d) in s.allows[k] { assert Object(d) in s.allows[k] - {Gone}; }
    }
    assert forall k :: k in Missing(s, listed) <==> k in s.allows && Gone !in s.allows[k] && k !in listed;
    assert forall k :: k in Extra(s, listed) <==> k in listed && !(k in s.allows && s.allows[k] - {Gone} != {});
  }

  /** On a truthful store the keys it holds pass the listing check. */
  lemma ListingPasses(s: State)
    requires Inv(s)
    ensures Missing(s, s.store.Keys) == {} && Extra(s, s.store.Keys) == {}
  {
    forall k | k in s.store.Keys ensures k in s.allows && s.allows[k] - {Gone} != {} {
      assert Now(s, k) in s.allows[k] - {Gone};
    }
  }

  /** With every key's outcome known, no other listing passes. */
  lemma OnlyThatListingPasses(s: State, listed: set<Key>)
    requires Inv(s)
    requires forall k :: k in s.allows ==> exists o :: s.allows[k] == {o}
    requires Missing(s, listed) == {} && Extra(s, listed) == {}
    ensures listed == s.store.Keys
  {
    forall k | k in s.allows ensures s.allows[k] == {Now(s, k)} {
      assert Now(s, k) in s.allows[k];
    }
    forall k ensures k in listed <==> k in s.store {
      assert k !in Missing(s, listed) && k !in Extra(s, listed);
    }
  }
}
