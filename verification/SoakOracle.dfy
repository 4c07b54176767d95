/** The soak's correctness oracle as a concurrent protocol.

    Writers own their keys and run one operation at a time. Each keeps, in the
    shared `allows` (`expect` in the script), the outcomes a read of a key may show: widened before a
    request is sent, narrowed after it is acknowledged. The store answers in
    between. A run is any interleaving of the steps of all writers, each
    operation failing or not.

    Assumed of the store: an acknowledged operation has taken effect, and one
    that is not takes effect before its answer or never. */
module SoakOracle {
  import opened Basics

  /** The key `w<writer>/k<index>`. */
  datatype Key = Key(writer: nat, index: nat)

  datatype Outcome = Gone | Object(digest: nat)

  datatype Kind = Put | Overwrite | Delete

  datatype Op = Op(kind: Kind, key: Key, leaves: Outcome)

  datatype Phase =
    | Idle
    | Sent(op: Op, applied: bool)
    | Answered(op: Op, applied: bool, ok: bool)

  /** A writer: its loop counter, the keys it made and has not seen deleted,
      and the operation it is in. */
  datatype Writer = Writer(i: nat, mine: seq<Key>, phase: Phase)

  datatype State = State(
    allows: map<Key, set<Outcome>>,
    touched: set<Key>,
    store: map<Key, nat>,
    writers: seq<Writer>)

  /** What a read of `k` shows. */
  function Now(s: State, k: Key): Outcome {
    if k in s.store then Object(s.store[k]) else Gone
  }

  function Init(writers: nat): State {
    State(map[], {}, map[], seq(writers, _ => Writer(0, [], Idle)))
  }

  // ----- steps ------------------------------------------------------------

  /** `SendPut` makes a new key, the other two sends name one of the writer's
      keys by its place. `Apply` is the store's step. */
  datatype Action =
    | SendPut(w: nat, digest: nat)
    | SendOverwrite(w: nat, j: nat, digest: nat)
    | SendDelete(w: nat, j: nat)
    | Apply(w: nat)
    | Answer(w: nat, ok: bool)
    | Settle(w: nat)
    | TakeTouched

  predicate Enabled(s: State, a: Action) {
    match a
    case SendPut(w, _) => w < |s.writers| && s.writers[w].phase.Idle?
    case SendOverwrite(w, j, _) => w < |s.writers| && s.writers[w].phase.Idle? && j < |s.writers[w].mine|
    case SendDelete(w, j) => w < |s.writers| && s.writers[w].phase.Idle? && j < |s.writers[w].mine|
    case Apply(w) => w < |s.writers| && s.writers[w].phase.Sent? && !s.writers[w].phase.applied
    case Answer(w, ok) => w < |s.writers| && s.writers[w].phase.Sent? && (ok ==> s.writers[w].phase.applied)
    case Settle(w) => w < |s.writers| && s.writers[w].phase.Answered?
    case TakeTouched => true
  }

  /** The operation a send starts. */
  function Started(s: State, a: Action): (op: Op)
    requires Enabled(s, a) && (a.SendPut? || a.SendOverwrite? || a.SendDelete?)
  {
    match a
    case SendPut(w, d) => Op(Put, Key(w, s.writers[w].i + 1), Object(d))
    case SendOverwrite(w, j, d) => Op(Overwrite, s.writers[w].mine[j], Object(d))
    case SendDelete(w, j) => Op(Delete, s.writers[w].mine[j], Gone)
  }

  /** What is allowed of a key: of one never written, that it is not there. */
  function AllowedOr(allows: map<Key, set<Outcome>>, k: Key): set<Outcome> {
    if k in allows then allows[k] else {Gone}
  }

  /** A send: the key's allowed outcomes widened by the one it may leave. */
  function Send(s: State, w: nat, op: Op, mine: seq<Key>): State
    requires w < |s.writers|
  {
    s.(allows := s.allows[op.key := AllowedOr(s.allows, op.key) + {op.leaves}],
       writers := s.writers[w := Writer(s.writers[w].i + 1, mine, Sent(op, false))])
  }

  function Applied(store: map<Key, nat>, op: Op): map<Key, nat> {
    match op.leaves
    case Gone => store - {op.key}
    case Object(d) => store[op.key := d]
  }

  /** The end of an operation: narrowed if acknowledged; a key that may still
      exist stays on, or returns to, the writer's list. */
  function Finish(s: State, w: nat): State
    requires w < |s.writers| && s.writers[w].phase.Answered?
  {
    var me := s.writers[w];
    var op := me.phase.op;
    var keep := op.kind.Put? || (op.kind.Delete? && !me.phase.ok);
    s.(allows := if me.phase.ok then s.allows[op.key := {op.leaves}] else s.allows,
       touched := s.touched + {op.key},
       writers := s.writers[w := Writer(me.i, if keep then me.mine + [op.key] else me.mine, Idle)])
  }

  function Step(s: State, a: Action): State
    requires Enabled(s, a)
  {
    match a
    case SendPut(w, _) => Send(s, w, Started(s, a), s.writers[w].mine)
    case SendOverwrite(w, _, _) => Send(s, w, Started(s, a), s.writers[w].mine)
    case SendDelete(w, j) => Send(s, w, Started(s, a), Without(s.writers[w].mine, j))
    case Apply(w) =>
      var me := s.writers[w];
      s.(store := Applied(s.store, me.phase.op),
         writers := s.writers[w := me.(phase := Sent(me.phase.op, true))])
    case Answer(w, ok) =>
      var me := s.writers[w];
      s.(writers := s.writers[w := me.(phase := Answered(me.phase.op, me.phase.applied, ok))])
    case Settle(w) => Finish(s, w)
    case TakeTouched => s.(touched := {})
  }

  predicate Legal(s: State, run: seq<Action>)
    decreases |run|
  {
    run != [] ==> Enabled(s, run[0]) && Legal(Step(s, run[0]), run[1..])
  }

  function After(s: State, run: seq<Action>): State
    requires Legal(s, run)
    decreases |run|
  {
    if run == [] then s else After(Step(s, run[0]), run[1..])
  }

  // ----- what every step keeps --------------------------------------------

  ghost predicate NoRepeats(s: seq<Key>) {
    forall i, j :: 0 <= i < j < |s| ==> s[i] != s[j]
  }

  /** `w`'s keys that may exist. */
  ghost predicate MayExist(s: State, w: nat, k: Key) {
    k in s.allows && k.writer == w && s.allows[k] != {Gone}
  }

  /** `list` names `w`'s keys that may exist, each once. */
  ghost predicate Lists(s: State, w: nat, list: seq<Key>) {
    NoRepeats(list) && forall k :: k in list <==> MayExist(s, w, k)
  }

  ghost predicate InFlightOk(s: State, w: nat, op: Op, applied: bool)
    requires w < |s.writers|
  {
    && op.key.writer == w && op.key in s.allows
    && (op.kind.Delete? <==> op.leaves.Gone?)
    && op.leaves in s.allows[op.key]
    && (applied ==> Now(s, op.key) == op.leaves)
    && Lists(s, w, if op.kind.Overwrite? then s.writers[w].mine else s.writers[w].mine + [op.key])
  }

  ghost predicate WriterOk(s: State, w: nat)
    requires w < |s.writers|
  {
    match s.writers[w].phase
    case Idle => Lists(s, w, s.writers[w].mine)
    case Sent(op, applied) => InFlightOk(s, w, op, applied)
    case Answered(op, applied, ok) => InFlightOk(s, w, op, applied) && (ok ==> applied)
  }

  /** The oracle tells the truth: a key's stored outcome is among those it
      allows, and a key it does not know is not stored. */
  ghost predicate Truthful(s: State) {
    && (forall k :: k in s.allows ==> Now(s, k) in s.allows[k])
    && (forall k :: k in s.store ==> k in s.allows)
  }

  ghost predicate Inv(s: State) {
    && Truthful(s)
    && s.touched <= s.allows.Keys
    && (forall k :: k in s.allows ==> k.writer < |s.writers| && k.index <= s.writers[k.writer].i)
    && (forall w :: 0 <= w < |s.writers| ==> WriterOk(s, w))
  }

  lemma WithoutOne(s: seq<Key>, j: nat)
    requires NoRepeats(s) && j < |s|
    ensures NoRepeats(Without(s, j) + [s[j]])
    ensures forall k :: k in Without(s, j) + [s[j]] <==> k in s
  {
    assert s == s[..j] + [s[j]] + s[j + 1..];
  }

  lemma LastIsApart(s: seq<Key>, k: Key)
    requires NoRepeats(s + [k])
    ensures NoRepeats(s) && k !in s
  {
    var t := s + [k];
    assert forall i :: 0 <= i < |s| ==> s[i] == t[i];
    assert t[|s|] == k;
  }

  /** A step of `w` that leaves other writers' keys alone leaves them well. */
  lemma OthersKeep(s: State, s': State, w: nat)
    requires Inv(s) && w < |s.writers| == |s'.writers|
    requires forall v :: 0 <= v < |s.writers| && v != w ==> s'.writers[v] == s.writers[v]
    requires forall k: Key :: k.writer != w ==> (k in s'.allows <==> k in s.allows)
    requires forall k: Key :: k.writer != w && k in s.allows ==> s'.allows[k] == s.allows[k]
    requires forall k: Key :: k.writer != w ==> Now(s', k) == Now(s, k)
    ensures forall v :: 0 <= v < |s.writers| && v != w ==> WriterOk(s', v)
  {
    forall v | 0 <= v < |s.writers| && v != w ensures WriterOk(s', v) {
      assert WriterOk(s, v);
      assert forall k :: MayExist(s', v, k) <==> MayExist(s, v, k);
    }
  }

  /** A send keeps the invariant when the writer's list, with the key in
      flight, still names its keys. */
  lemma SendKeepsAs(s: State, w: nat, op: Op, mine: seq<Key>)
    requires Inv(s) && w < |s.writers| && s.writers[w].phase.Idle?
    requires op.key.writer == w && op.key.index <= s.writers[w].i + 1
    requires op.kind.Delete? <==> op.leaves.Gone?
    requires op.key in s.allows ==> MayExist(s, w, op.key)
    requires op.key !in s.allows ==> op.kind.Put?
    requires var list := if op.kind.Overwrite? then mine else mine + [op.key];
      NoRepeats(list) && forall k :: k in list <==> MayExist(s, w, k) || k == op.key
    ensures Inv(Send(s, w, op, mine))
  {
    var s' := Send(s, w, op, mine);
    assert forall k :: Now(s', k) == Now(s, k);
    OthersKeep(s, s', w);
    assert s'.allows[op.key] != {Gone} by {
      if op.key in s.allows {
        assert Now(s, op.key) in s.allows[op.key];
        var o :| o in s.allows[op.key] && o != Gone;
        assert o in s'.allows[op.key];
      } else {
        assert op.leaves in s'.allows[op.key];
      }
    }
    assert forall k :: MayExist(s', w, k) <==> MayExist(s, w, k) || k == op.key;
    assert WriterOk(s', w);
  }

  lemma SendKeeps(s: State, a: Action)
    requires Inv(s) && Enabled(s, a) && (a.SendPut? || a.SendOverwrite? || a.SendDelete?)
    ensures Inv(Step(s, a))
  {
    var w, op := a.w, Started(s, a);
    var mine := s.writers[w].mine;
    assert WriterOk(s, w);
    if a.SendPut? {
      assert op.key !in s.allows && op.key !in mine;
      SendKeepsAs(s, w, op, mine);
    } else if a.SendOverwrite? {
      assert op.key in mine;
      SendKeepsAs(s, w, op, mine);
    } else {
      assert op.key in mine;
      WithoutOne(mine, a.j);
      SendKeepsAs(s, w, op, Without(mine, a.j));
    }
  }

  lemma ApplyKeeps(s: State, w: nat)
    requires Inv(s) && Enabled(s, Apply(w))
    ensures Inv(Step(s, Apply(w)))
  {
    var s' := Step(s, Apply(w));
    var op := s.writers[w].phase.op;
    assert WriterOk(s, w);
    assert Now(s', op.key) == op.leaves;
    OthersKeep(s, s', w);
    assert forall k :: MayExist(s', w, k) <==> MayExist(s, w, k);
    assert WriterOk(s', w);
  }

  lemma AnswerKeeps(s: State, w: nat, ok: bool)
    requires Inv(s) && Enabled(s, Answer(w, ok))
    ensures Inv(Step(s, Answer(w, ok)))
  {
    var s' := Step(s, Answer(w, ok));
    assert WriterOk(s, w);
    OthersKeep(s, s', w);
    assert forall k :: MayExist(s', w, k) <==> MayExist(s, w, k);
    assert WriterOk(s', w);
  }

  /** The list of an operation in flight names its key. */
  lemma InFlightIsListed(s: State, w: nat)
    requires Inv(s) && w < |s.writers| && !s.writers[w].phase.Idle?
    ensures var op, mine := s.writers[w].phase.op, s.writers[w].mine;
      if op.kind.Overwrite? then op.key in mine else NoRepeats(mine) && op.key !in mine
  {
    var op := s.writers[w].phase.op;
    assert WriterOk(s, w);
    if op.kind.Overwrite? {
      assert op.leaves in s.allows[op.key];
      assert MayExist(s, w, op.key);
    } else {
      LastIsApart(s.writers[w].mine, op.key);
    }
  }

  lemma SettleLists(s: State, w: nat)
    requires Inv(s) && Enabled(s, Settle(w))
    ensures var s' := Step(s, Settle(w)); Lists(s', w, s'.writers[w].mine)
  {
    var s' := Step(s, Settle(w));
    var op, mine := s.writers[w].phase.op, s.writers[w].mine;
    assert WriterOk(s, w);
    InFlightIsListed(s, w);
    var list := if op.kind.Overwrite? then mine else mine + [op.key];
    forall k ensures k in s'.writers[w].mine <==> MayExist(s', w, k) {
      assert k in list <==> MayExist(s, w, k);
      if k == op.key {
        assert op.leaves in s.allows[op.key];
        assert op.leaves in s'.allows[op.key];
      }
    }
  }

  lemma SettleKeeps(s: State, w: nat)
    requires Inv(s) && Enabled(s, Settle(w))
    ensures Inv(Step(s, Settle(w)))
  {
    var s' := Step(s, Settle(w));
    assert WriterOk(s, w);
    assert forall k :: Now(s', k) == Now(s, k);
    OthersKeep(s, s', w);
    SettleLists(s, w);
    assert WriterOk(s', w);
  }

  lemma StepKeeps(s: State, a: Action)
    requires Inv(s) && Enabled(s, a)
    ensures Inv(Step(s, a))
  {
    match a {
      case Apply(w) => ApplyKeeps(s, w);
      case Answer(w, ok) => AnswerKeeps(s, w, ok);
      case Settle(w) => SettleKeeps(s, w);
      case TakeTouched =>
        forall w | 0 <= w < |s.writers| ensures WriterOk(Step(s, a), w) {
          assert WriterOk(s, w);
          assert forall k :: MayExist(Step(s, a), w, k) <==> MayExist(s, w, k);
        }
      case _ => SendKeeps(s, a);
    }
  }

  lemma {:induction false} RunKeeps(s: State, run: seq<Action>)
    requires Inv(s) && Legal(s, run)
    ensures Inv(After(s, run))
    decreases |run|
  {
    if run != [] {
      StepKeeps(s, run[0]);
      RunKeeps(Step(s, run[0]), run[1..]);
    }
  }

  /** Oracle soundness. In every interleaving from the start, whatever fails,
      the oracle is truthful, and a writer between operations lists exactly its
      keys that may exist, each once. */
  lemma OracleIsSound(writers: nat, run: seq<Action>)
    requires Legal(Init(writers), run)
    ensures var s := After(Init(writers), run);
      && Truthful(s)
      && s.touched <= s.allows.Keys
      && forall w :: 0 <= w < |s.writers| && s.writers[w].phase.Idle? ==> Lists(s, w, s.writers[w].mine)
  {
    assert Inv(Init(writers));
    RunKeeps(Init(writers), run);
    var s := After(Init(writers), run);
    forall w | 0 <= w < |s.writers| && s.writers[w].phase.Idle? ensures Lists(s, w, s.writers[w].mine) {
      assert WriterOk(s, w);
    }
  }

  // ----- and allows no more than could be ---------------------------------

  lemma {:induction false} RunOn(s: State, run: seq<Action>, a: Action)
    ensures Legal(s, run + [a]) <==> Legal(s, run) && Enabled(After(s, run), a)
    ensures Legal(s, run + [a]) ==> After(s, run + [a]) == Step(After(s, run), a)
    decreases |run|
  {
    if run == [] {
      assert run + [a] == [a] && [a][1..] == [];
    } else {
      assert (run + [a])[1..] == run[1..] + [a];
      if Enabled(s, run[0]) { RunOn(Step(s, run[0]), run[1..], a); }
    }
  }

  /** What the threads see of a run: all but when the store carries requests out. */
  function Visible(run: seq<Action>): seq<Action> {
    if run == [] then [] else
    var before, a := Visible(run[..|run| - 1]), run[|run| - 1];
    if a.Apply? then before else before + [a]
  }

  /** The same to the writer, but for whether its request was carried out yet. */
  predicate SameToIt(a: Writer, b: Writer) {
    && a.i == b.i && a.mine == b.mine
    && match a.phase
       case Idle => b.phase.Idle?
       case Sent(op, _) => b.phase.Sent? && b.phase.op == op
       case Answered(op, _, ok) => b.phase.Answered? && b.phase.op == op && b.phase.ok == ok
  }

  /** The same to the threads. */
  ghost predicate LooksLike(s: State, t: State) {
    && s.allows == t.allows && s.touched == t.touched && |s.writers| == |t.writers|
    && forall w :: 0 <= w < |s.writers| ==> SameToIt(s.writers[w], t.writers[w])
  }

  lemma StepsAlike(s: State, t: State, a: Action)
    requires LooksLike(s, t) && Enabled(s, a) && !a.Apply? && (a.Answer? && a.ok ==> Enabled(t, a))
    ensures Enabled(t, a) && LooksLike(Step(s, a), Step(t, a))
    ensures Step(t, a).store == t.store
  {
    if a != TakeTouched { assert SameToIt(s.writers[a.w], t.writers[a.w]); }
  }

  lemma ApplyUnseen(s: State, t: State, w: nat)
    requires LooksLike(s, t)
    ensures Enabled(s, Apply(w)) ==> LooksLike(Step(s, Apply(w)), t)
    ensures Enabled(t, Apply(w)) ==> LooksLike(s, Step(t, Apply(w)))
  {
  }

  /** `other` looks like `run` to the threads. */
  ghost predicate Mimics(n: nat, run: seq<Action>, other: seq<Action>) {
    && Legal(Init(n), run) && Legal(Init(n), other) && Visible(other) == Visible(run)
    && LooksLike(After(Init(n), run), After(Init(n), other))
  }

  /** And leaves `o` stored for `k`. */
  ghost predicate Shows(n: nat, run: seq<Action>, other: seq<Action>, k: Key, o: Outcome) {
    Mimics(n, run, other) && Now(After(Init(n), other), k) == o
  }

  lemma ShowsOn(n: nat, run: seq<Action>, other: seq<Action>, a: Action, k: Key, o: Outcome)
    requires Shows(n, run, other, k, o) && Legal(Init(n), run + [a]) && !a.Apply?
    requires a.Answer? && a.ok ==> Enabled(After(Init(n), other), a)
    ensures Shows(n, run + [a], other + [a], k, o)
  {
    RunOn(Init(n), run, a);
    RunOn(Init(n), other, a);
    StepsAlike(After(Init(n), run), After(Init(n), other), a);
    assert (run + [a])[..|run|] == run && (other + [a])[..|other|] == other;
  }

  /** The store carries out, unseen, a request for another key, or one that leaves `o`. */
  lemma ShowsApplied(n: nat, run: seq<Action>, other: seq<Action>, w: nat, k: Key, o: Outcome)
    requires Mimics(n, run, other) && Enabled(After(Init(n), other), Apply(w))
    requires var t := After(Init(n), other);
      if t.writers[w].phase.op.key == k then t.writers[w].phase.op.leaves == o else Now(t, k) == o
    ensures Shows(n, run, other + [Apply(w)], k, o)
  {
    RunOn(Init(n), other, Apply(w));
    ApplyUnseen(After(Init(n), run), After(Init(n), other), w);
    assert (other + [Apply(w)])[..|other|] == other;
  }

  lemma MimicsApplied(n: nat, run: seq<Action>, other: seq<Action>, w: nat)
    requires Mimics(n, run, other) && Legal(Init(n), run + [Apply(w)])
    ensures Mimics(n, run + [Apply(w)], other)
  {
    RunOn(Init(n), run, Apply(w));
    ApplyUnseen(After(Init(n), run), After(Init(n), other), w);
    assert (run + [Apply(w)])[..|run|] == run;
  }

  /** Writer `w` has an acknowledgement for `k` that is not settled yet. */
  predicate AckedBy(s: State, k: Key, w: nat) {
    && w < |s.writers| && s.writers[w].phase.Answered? && s.writers[w].phase.ok && s.writers[w].phase.op.key == k
  }

  ghost predicate AckedOn(s: State, k: Key) { exists w :: AckedBy(s, k, w) }

  lemma AckedStays(s: State, a: Action, k: Key)
    requires Enabled(s, a) && AckedOn(s, k) && !(a.Settle? && AckedBy(s, k, a.w))
    ensures AckedOn(Step(s, a), k)
  {
    var w :| AckedBy(s, k, w);
    assert AckedBy(Step(s, a), k, w);
  }

  ghost predicate Allowing(n: nat, run: seq<Action>, k: Key, o: Outcome) {
    && Legal(Init(n), run)
    && var s := After(Init(n), run); k in s.allows && o in s.allows[k] && !AckedOn(s, k)
  }

  /** Every outcome allowed is one the store may have, for all the threads have seen:
      some run that looks the same to them leaves it stored. */
  lemma {:induction false} EveryAllowedIsPossible(n: nat, run: seq<Action>, k: Key, o: Outcome)
    returns (other: seq<Action>)
    requires Allowing(n, run, k, o)
    ensures Shows(n, run, other, k, o)
    decreases |run|
  {
    assert run != [];
    var r, a := run[..|run| - 1], run[|run| - 1];
    assert run == r + [a];
    RunOn(Init(n), r, a);
    var s := After(Init(n), r);
    if a.Settle? && AckedBy(s, k, a.w) {
      OracleIsSound(n, run);
      other := run;
    } else if k !in s.allows || o !in s.allows[k] {
      other := PossibleAfterSend(n, r, a, k, o);
    } else {
      if AckedOn(s, k) { AckedStays(s, a, k); }
      other := EveryAllowedIsPossible(n, r, k, o);
      other := PossibleStill(n, r, a, k, o, other);
    }
  }

  lemma PossibleStill(n: nat, r: seq<Action>, a: Action, k: Key, o: Outcome, other: seq<Action>)
    returns (more: seq<Action>)
    requires Shows(n, r, other, k, o) && Legal(Init(n), r + [a]) && !AckedOn(After(Init(n), r + [a]), k)
    ensures Shows(n, r + [a], more, k, o)
  {
    RunOn(Init(n), r, a);
    var s, t := After(Init(n), r), After(Init(n), other);
    more := other;
    if a.Apply? {
      MimicsApplied(n, r, other, a.w);
    } else {
      if a.Answer? && a.ok && !Enabled(t, a) {
        assert SameToIt(s.writers[a.w], t.writers[a.w]);
        assert AckedBy(Step(s, a), s.writers[a.w].phase.op.key, a.w);
        ShowsApplied(n, r, other, a.w, k, o);
        RunOn(Init(n), other, Apply(a.w));
        more := more + [Apply(a.w)];
      }
      ShowsOn(n, r, more, a, k, o);
      more := more + [a];
    }
  }

  /** An outcome newly allowed is that of the request sent, or of a key never written. */
  lemma PossibleAfterSend(n: nat, r: seq<Action>, a: Action, k: Key, o: Outcome) returns (other: seq<Action>)
    requires Allowing(n, r + [a], k, o) && Legal(Init(n), r)
    requires var s := After(Init(n), r);
      (k !in s.allows || o !in s.allows[k]) && Enabled(s, a) && !(a.Settle? && AckedBy(s, k, a.w))
    ensures Shows(n, r + [a], other, k, o)
  {
    RunOn(Init(n), r, a);
    var s := After(Init(n), r);
    OracleIsSound(n, r);
    other := r + [a];
    if o == Started(s, a).leaves {
      ShowsApplied(n, r + [a], r + [a], a.w, k, o);
      other := other + [Apply(a.w)];
    }
  }

  lemma AckedIsStored(s: State, k: Key, w: nat)
    requires Inv(s) && AckedBy(s, k, w)
    ensures Now(s, k) == s.writers[w].phase.op.leaves
  {
    assert WriterOk(s, w);
  }

  /** What was acknowledged is the only outcome left, settled or not. */
  ghost predicate FitsAcks(s: State, k: Key, o: Outcome) {
    forall w: nat :: AckedBy(s, k, w) ==> s.writers[w].phase.op.leaves == o
  }

  lemma ShownIsAllowed(n: nat, run: seq<Action>, other: seq<Action>, k: Key, o: Outcome)
    requires Shows(n, run, other, k, o) && k in After(Init(n), run).allows
    ensures o in After(Init(n), run).allows[k] && FitsAcks(After(Init(n), run), k, o)
  {
    var s, t := After(Init(n), run), After(Init(n), other);
    assert Inv(Init(n));
    RunKeeps(Init(n), other);
    forall w: nat | AckedBy(s, k, w) ensures s.writers[w].phase.op.leaves == o {
      assert SameToIt(s.writers[w], t.writers[w]);
      AckedIsStored(t, k, w);
    }
  }

  /** Oracle exactness, after any run: of a key's outcomes, those the store may have,
      for all the threads have seen, are exactly those allowed, but that only one is
      left as soon as it is acknowledged, before the oracle says so. */
  lemma AllowedExactlyWhenPossible(n: nat, run: seq<Action>, k: Key, o: Outcome)
    requires Legal(Init(n), run) && k in After(Init(n), run).allows
    ensures (exists other :: Shows(n, run, other, k, o)) <==>
      o in After(Init(n), run).allows[k] && FitsAcks(After(Init(n), run), k, o)
  {
    var s := After(Init(n), run);
    if other :| Shows(n, run, other, k, o) { ShownIsAllowed(n, run, other, k, o); }
    if o in s.allows[k] && FitsAcks(s, k, o) {
      if w :| AckedBy(s, k, w) {
        assert Inv(Init(n));
        RunKeeps(Init(n), run);
        AckedIsStored(s, k, w);
        assert Shows(n, run, run, k, o);
      } else {
        var other := EveryAllowedIsPossible(n, run, k, o);
      }
    }
  }

  // ----- the keys a check is to look at -----------------------------------

  /** The keys of the operations that end during `run`. */
  function SettledIn(s: State, run: seq<Action>): set<Key>
    requires Legal(s, run)
    decreases |run|
  {
    if run == [] then {} else
    (if run[0].Settle? then {s.writers[run[0].w].phase.op.key} else {}) + SettledIn(Step(s, run[0]), run[1..])
  }

  /** `touched` is exactly the keys whose operations ended, well or not, since a check
      last took it. */
  lemma {:induction false} TouchedIsSettled(s: State, run: seq<Action>)
    requires Legal(s, run) && TakeTouched !in run
    ensures After(s, run).touched == s.touched + SettledIn(s, run)
    ensures Step(s, TakeTouched).touched == {}
    decreases |run|
  {
    if run != [] {
      assert forall a :: a in run[1..] ==> a in run;
      assert run[0] in run;
      TouchedIsSettled(Step(s, run[0]), run[1..]);
    }
  }

  // ----- the shared state the threads update ------------------------------

  /** The script's shared variables and its writers. Each method is one
      uninterrupted piece of a thread, most of them a block under the lock. */
  class Harness {
    var allows: map<Key, set<Outcome>>
    var touched: set<Key>
    var store: map<Key, nat>
    var writers: seq<Writer>

    ghost function View(): State
      reads this
    {
      State(allows, touched, store, writers)
    }

    constructor (n: nat)
      ensures View() == Init(n) && Inv(View())
    {
      allows, touched, store := map[], {}, map[];
      writers := seq(n, _ => Writer(0, [], Idle));
    }

    method StartPut(w: nat, digest: nat)
      requires Inv(View()) && Enabled(View(), SendPut(w, digest))
      modifies this
      ensures View() == Step(old(View()), SendPut(w, digest)) && Inv(View())
    {
      StepKeeps(View(), SendPut(w, digest));
      var i := writers[w].i + 1;
      var key := Key(w, i);
      allows := allows[key := AllowedOr(allows, key) + {Object(digest)}];
      writers := writers[w := Writer(i, writers[w].mine, Sent(Op(Put, key, Object(digest)), false))];
    }

    method StartOverwrite(w: nat, j: nat, digest: nat)
      requires Inv(View()) && Enabled(View(), SendOverwrite(w, j, digest))
      modifies this
      ensures View() == Step(old(View()), SendOverwrite(w, j, digest)) && Inv(View())
    {
      StepKeeps(View(), SendOverwrite(w, j, digest));
      var i := writers[w].i + 1;
      var key := writers[w].mine[j];
      allows := allows[key := AllowedOr(allows, key) + {Object(digest)}];
      writers := writers[w := Writer(i, writers[w].mine, Sent(Op(Overwrite, key, Object(digest)), false))];
    }

    /** A delete looks its key up in the oracle without a default: the writer's
        list holds only keys the oracle knows. */
    method StartDelete(w: nat, j: nat)
      requires Inv(View()) && Enabled(View(), SendDelete(w, j))
      modifies this
      ensures View() == Step(old(View()), SendDelete(w, j)) && Inv(View())
    {
      StepKeeps(View(), SendDelete(w, j));
      var mine := writers[w].mine;
      var key := mine[j];
      assert WriterOk(View(), w);
      assert MayExist(View(), w, key);
      mine := mine[..j] + mine[j + 1..];
      allows := allows[key := allows[key] + {Gone}];
      writers := writers[w := Writer(writers[w].i + 1, mine, Sent(Op(Delete, key, Gone), false))];
    }

    /** A check takes the keys changed since the last one. */
    method TakeChanged() returns (keys: set<Key>)
      requires Inv(View())
      modifies this
      ensures keys == old(touched) && View() == Step(old(View()), TakeTouched) && Inv(View())
    {
      StepKeeps(View(), TakeTouched);
      keys := touched;
      touched := {};
    }

    /** The last block of an operation, and what the writer does after it. */
    method FinishOperation(w: nat)
      requires Inv(View()) && Enabled(View(), Settle(w))
      modifies this
      ensures View() == Step(old(View()), Settle(w)) && Inv(View())
    {
      StepKeeps(View(), Settle(w));
      var Answered(op, _, ok) := writers[w].phase;
      if ok {
        allows := allows[op.key := {op.leaves}];
      }
      touched := touched + {op.key};
      var mine := writers[w].mine;
      if op.kind.Put? || (op.kind.Delete? && !ok) {
        mine := mine + [op.key];
      }
      writers := writers[w := Writer(writers[w].i, mine, Idle)];
    }
  }
}
