/** `cluster init`: an installer asks the metadata nodes, one request at a time, to
    become one Raft group.

    The installer may be cut off, or a call may fail, anywhere, and it is run
    again until it succeeds. The nodes answer as their admin port does: `/init`
    on a node that has a group answers 409 and changes nothing; a group takes
    membership changes only at one of its voters, and only to nodes that are
    its voters or learners. One installer runs at a time. */
module GroupFormation {
  import opened Basics
  import opened Sorting

  type Url = string

  datatype Node = Node(id: int, addr: string)

  datatype Group = Group(voters: seq<int>, learners: set<int>)

  /** Every node, the groups ever started, and the group each node is in. */
  datatype World = World(nodes: map<Url, Node>, groups: seq<Group>, memberOf: map<Url, nat>)

  datatype Post =
    | PostInit(url: Url)
    | PostAddLearner(url: Url, id: int, addr: string)
    | PostChangeMembership(url: Url, ids: seq<int>)

  /** A request sent, and the world it found. */
  datatype Posted = Posted(world: World, post: Post)

  /** What happens to a call: it may never arrive, be refused, or be carried out
      with its reply lost (as when the installer is cut off right after it). */
  datatype Fault = Fine | NeverSent | Refused | ReplyLost

  /** The n-th call's fault, and the leader the first node would name, if any. */
  datatype Env = Env(faults: nat -> Fault, leader: World -> Option<int>)

  datatype Outcome = Formed | Failed

  // ----- the nodes --------------------------------------------------------

  predicate HasGroup(w: World, url: Url) { url in w.memberOf && w.memberOf[url] < |w.groups| }

  /** The voters `/status` shows. */
  function VotersSeen(w: World, url: Url): seq<int> {
    if HasGroup(w, url) then w.groups[w.memberOf[url]].voters else []
  }

  function LearnersSeen(w: World, url: Url): set<int> {
    if HasGroup(w, url) then w.groups[w.memberOf[url]].learners else {}
  }

  predicate Accepts(w: World, p: Post) {
    match p
    case PostInit(url) => url in w.nodes && !HasGroup(w, url)
    case PostAddLearner(url, _, _) => url in w.nodes && w.nodes[url].id in VotersSeen(w, url)
    case PostChangeMembership(url, ids) =>
      && url in w.nodes && w.nodes[url].id in VotersSeen(w, url)
      && forall n :: 0 <= n < |ids| ==> ids[n] in VotersSeen(w, url) || ids[n] in LearnersSeen(w, url)
  }

  /** The nodes after carrying out an accepted request. */
  function Carry(w: World, p: Post): World
    requires Accepts(w, p)
  {
    match p
    case PostInit(url) =>
      w.(groups := w.groups + [Group([w.nodes[url].id], {})], memberOf := w.memberOf[url := |w.groups|])
    case PostAddLearner(url, id, addr) =>
      var g := w.memberOf[url];
      w.(groups := w.groups[g := w.groups[g].(learners := w.groups[g].learners + {id})],
         memberOf := (map u | u in w.nodes && w.nodes[u] == Node(id, addr) :: g) + w.memberOf)
    case PostChangeMembership(url, ids) =>
      var g := w.memberOf[url];
      w.(groups := w.groups[g := w.groups[g].(voters := ids)])
  }

  /** The world after a request, which a fault may keep from the nodes. */
  function Send(w: World, p: Post, f: Fault): World {
    if f.NeverSent? || f.Refused? || !Accepts(w, p) then w else Carry(w, p)
  }

  /** Whether a 2xx came back. */
  predicate Succeeds(w: World, p: Post, f: Fault) { f.Fine? && Accepts(w, p) }

  predicate NoAddress(addr: string) { "0.0.0.0" <= addr || "[::]" <= addr }

  /** The addresses that are none: the wildcards, with whatever port. */
  lemma WildcardsAreNone(addr: string)
    ensures NoAddress(addr) <==> exists port :: addr == "0.0.0.0" + port || addr == "[::]" + port
  {
    if "0.0.0.0" <= addr { assert addr == "0.0.0.0" + addr[7..]; }
    if "[::]" <= addr { assert addr == "[::]" + addr[4..]; }
  }

  // ----- what every request keeps -----------------------------------------

  /** No group disappears, no voter is taken out of one, and no node leaves. */
  ghost predicate VotersKept(w: World, w': World) {
    && w'.nodes == w.nodes && |w.groups| <= |w'.groups|
    && (forall g, v :: 0 <= g < |w.groups| && v in w.groups[g].voters ==> v in w'.groups[g].voters)
    && (forall u :: u in w.memberOf ==> u in w'.memberOf)
  }

  predicate In(g: Group, id: int) { id in g.voters || id in g.learners }

  /** One of the nodes named has this id and is in a group. */
  ghost predicate HasMember(w: World, named: seq<Url>, id: int) {
    exists u :: u in named && u in w.nodes && w.nodes[u].id == id && u in w.memberOf
  }

  /** `u` is the node of one of the addresses named. */
  ghost predicate IsNamed(w: World, named: seq<Url>, u: Url) {
    u in w.nodes && exists n :: n in named && n in w.nodes && w.nodes[n] == w.nodes[u]
  }

  /** Every id of a group in `w'` was in it in `w`, or is a named node's that
      joined, and no node joined but those named. */
  ghost predicate OnlyNamedAdded(w: World, w': World, named: seq<Url>) {
    && w'.nodes == w.nodes
    && (forall g, v :: 0 <= g < |w'.groups| && In(w'.groups[g], v) ==>
          (g < |w.groups| && In(w.groups[g], v)) || HasMember(w', named, v))
    && (forall u :: u in w'.memberOf ==> u in w.memberOf || IsNamed(w, named, u))
  }

  /** A request `init` may post when `first` is the node named first: it starts a
      group only there, and a membership change lists distinct nodes, among them
      every voter, the others being learners already. */
  ghost predicate Proper(p: Posted, first: Url) {
    match p.post
    case PostInit(url) => url == first
    case PostAddLearner(url, id, _) => id !in VotersSeen(p.world, url)
    case PostChangeMembership(url, ids) =>
      && Distinct(ids)
      && (forall v :: v in VotersSeen(p.world, url) ==> v in ids)
      && (forall id :: id in ids ==> id in VotersSeen(p.world, url) || id in LearnersSeen(p.world, url))
  }

  /** At most one group was ever started. */
  ghost predicate OneGroup(w: World) {
    && |w.groups| <= 1
    && (forall u :: u in w.memberOf ==> w.memberOf[u] == 0 && |w.groups| == 1)
    && (|w.groups| == 1 ==> w.groups[0].voters != [] && Distinct(w.groups[0].voters))
  }

  /** The request reaches the node, whether or not its answer comes back. */
  predicate Lands(f: Fault) { f.Fine? || f.ReplyLost? }

  /** A proper request keeps all that, whatever becomes of it; only `/init` at a
      node without a group starts one. */
  lemma SendKeeps(w: World, p: Post, f: Fault, first: Url)
    requires Proper(Posted(w, p), first)
    requires p.PostChangeMembership? ==> p.ids != []
    ensures VotersKept(w, Send(w, p, f))
    ensures |Send(w, p, f).groups| == |w.groups| + if p.PostInit? && Accepts(w, p) && Lands(f) then 1 else 0
    ensures OneGroup(w) && |Send(w, p, f).groups| <= 1 ==> OneGroup(Send(w, p, f))
  {
  }

  lemma VotersKeptOn(w: World, w': World, w'': World)
    requires VotersKept(w, w') && VotersKept(w', w'')
    ensures VotersKept(w, w'')
  {
  }

  lemma MemberStays(w: World, w': World, named: seq<Url>, id: int)
    requires VotersKept(w, w')
    ensures HasMember(w, named, id) ==> HasMember(w', named, id)
  {
  }

  lemma OnlyNamedOn(w: World, w': World, w'': World, named: seq<Url>)
    requires OnlyNamedAdded(w, w', named) && OnlyNamedAdded(w', w'', named) && VotersKept(w', w'')
    ensures OnlyNamedAdded(w, w'', named)
  {
    forall g, v | 0 <= g < |w''.groups| && In(w''.groups[g], v)
      ensures (g < |w.groups| && In(w.groups[g], v)) || HasMember(w'', named, v)
    {
      MemberStays(w', w'', named, v);
    }
  }

  // ----- the installer ----------------------------------------------------

  /** The ids of the nodes named. */
  function IdsOf(nodes: map<Url, Node>, named: seq<Url>): (ids: seq<int>)
    requires forall u :: u in named ==> u in nodes
    ensures |ids| == |named| && forall n :: 0 <= n < |named| ==> ids[n] == nodes[named[n]].id
  {
    if named == [] then [] else [nodes[named[0]].id] + IdsOf(nodes, named[1..])
  }

  ghost predicate AllKnown(w: World, named: seq<Url>) {
    forall u :: u in named ==> u in w.nodes && !NoAddress(w.nodes[u].addr)
  }

  /** Every node named answers with an address, and each with an id of its own. */
  ghost predicate AllAnswer(w: World, named: seq<Url>, env: Env) {
    && AllKnown(w, named)
    && (forall n :: 0 <= n < |named| ==> env.faults(n).Fine?)
    && Distinct(IdsOf(w.nodes, named))
  }

  /** A run starts a group: all answer, the first is in none, and `/init` lands. */
  ghost predicate Starts(w: World, named: seq<Url>, env: Env) {
    named != [] && AllAnswer(w, named, env) && !HasGroup(w, named[0]) && Lands(env.faults(|named|))
  }

  /** Every voter's id is one of the named nodes', and the other way round. */
  ghost predicate AllVote(w: World, named: seq<Url>)
    requires AllKnown(w, named)
  {
    |w.groups| == 1 && forall id :: id in w.groups[0].voters <==> id in IdsOf(w.nodes, named)
  }

  ghost predicate AllWell(env: Env) {
    && (forall n :: env.faults(n).Fine?)
    && (forall w: World :: w.groups != [] && w.groups[0].voters != [] ==>
          env.leader(w).Some? && env.leader(w).value in w.groups[0].voters)
  }

  /** The first node named is in the group, or there is none yet. */
  ghost predicate FirstIsIn(w: World, named: seq<Url>)
    requires named != []
  {
    w.groups == [] || named[0] in w.memberOf
  }

  /** Every node named answers, each with an id of its own, the first is in the
      group if there is one, and no voter is left out. */
  ghost predicate Smooth(w: World, named: seq<Url>, env: Env) {
    && named != [] && AllKnown(w, named) && Distinct(IdsOf(w.nodes, named)) && OneGroup(w) && FirstIsIn(w, named)
    && (|w.groups| == 1 ==> forall v :: v in w.groups[0].voters ==> HasMember(w, named, v))
    && AllWell(env)
  }

  /** The first `n` calls from `from` on are each answered. */
  ghost predicate Answered(env: Env, from: nat, n: nat) {
    forall k :: from <= k < from + n ==> env.faults(k).Fine?
  }

  /** The world once `/init` has been sent, where it is. */
  function AfterInit(w: World, named: seq<Url>, env: Env): World
    requires named != []
  {
    if VotersSeen(w, named[0]) == [] then Send(w, PostInit(named[0]), env.faults(|named|)) else w
  }

  /** The leader is the node named at `at`; it votes, and so does no node not named. */
  ghost predicate LeadsAt(w: World, named: seq<Url>, env: Env, at: nat) {
    && at < |named| && AllKnown(w, named)
    && var voters, id := VotersSeen(w, named[at]), w.nodes[named[at]].id;
      env.leader(w) == Some(id) && id in voters && forall v :: v in voters ==> v in IdsOf(w.nodes, named)
  }

  ghost predicate SomeLeads(w: World, named: seq<Url>, env: Env) { exists at :: LeadsAt(w, named, env, at) }

  /** A run that posts `posts` requests can succeed: every call is answered, each
      node has an address and an id of its own, and the leader is one of them,
      with no voter that is not. */
  ghost predicate CanForm(w: World, named: seq<Url>, env: Env, posts: nat) {
    && named != [] && AllKnown(w, named) && Distinct(IdsOf(w.nodes, named))
    && Answered(env, 0, |named| + posts + 2)
    && SomeLeads(AfterInit(w, named, env), named, env)
  }

  /** A node named shows the nodes named as the voters, itself among them. */
  ghost predicate ShowsThem(w: World, named: seq<Url>, at: nat) {
    && at < |named| && AllKnown(w, named) && w.nodes[named[at]].id in VotersSeen(w, named[at])
    && forall id :: id in VotersSeen(w, named[at]) <==> id in IdsOf(w.nodes, named)
  }

  ghost predicate SomeShows(w: World, named: seq<Url>) { exists at :: ShowsThem(w, named, at) }

  ghost predicate AllProper(log: seq<Posted>, first: Url) {
    forall n :: 0 <= n < |log| ==> Proper(log[n], first)
  }

  /** What any run does to the nodes, wherever it is cut off. A second group is
      started exactly by a run whose first node is in none, all answering, and
      whose `/init` lands. */
  ghost predicate Ran(w: World, named: seq<Url>, env: Env, w': World, log: seq<Posted>) {
    && VotersKept(w, w') && OnlyNamedAdded(w, w', named)
    && |w'.groups| == |w.groups| + (if Starts(w, named, env) then 1 else 0)
    && (OneGroup(w) ==> (OneGroup(w') <==> w.groups == [] || !Starts(w, named, env)))
    && (Starts(w, named, env) ==> named[0] in w'.memberOf)
    && (if named == [] then log == [] && w' == w else AllProper(log, named[0]))
  }

  /** `cluster init` on the nodes named. `log` is every request it posted. */
  method InitCluster(w0: World, named: seq<Url>, env: Env) returns (w: World, log: seq<Posted>, outcome: Outcome)
    ensures Ran(w0, named, env, w, log)
    ensures outcome == Formed <==> CanForm(w0, named, env, |log|)
    ensures outcome == Formed ==> SomeShows(w, named)
    ensures Smooth(w0, named, env) ==> outcome == Formed && AllVote(w, named)
    ensures Smooth(w0, named, env) && AllVote(w0, named) ==> log == [] && w == w0
    ensures Starts(w0, named, env) && env.faults(|named|).ReplyLost? ==> w == Send(w0, PostInit(named[0]), ReplyLost)
  {
    w, log, outcome := w0, [], Failed;
    if named == [] {
      return;
    }
    var ok, statuses, ids := Gather(w, named, env);
    if !ok {
      NotAllAnswer(w0, named, env);
      return;
    }
    w, log, outcome := Form(w0, named, statuses, ids, env);
  }

  /** A run whose nodes have all answered. */
  method Form(w0: World, named: seq<Url>, statuses: seq<Node>, ids: seq<int>, env: Env)
    returns (w: World, log: seq<Posted>, outcome: Outcome)
    requires Asked(w0, named, statuses, ids) && AllAnswer(w0, named, env)
    ensures Ran(w0, named, env, w, log)
    ensures outcome == Formed <==> CanForm(w0, named, env, |log|)
    ensures outcome == Formed ==> SomeShows(w, named)
    ensures Smooth(w0, named, env) ==> EndsWell(w0, named, w, log, outcome)
    ensures !HasGroup(w0, named[0]) && env.faults(|named|).ReplyLost? ==> w == Send(w0, PostInit(named[0]), ReplyLost)
  {
    var ok;
    w, log, ok := StartGroup(w0, named, env);
    CanFormBy(w0, w, named, env, |log|, 0);
    if !ok {
      return w, log, Failed;
    }
    w, log, outcome := Join(w0, w, named, statuses, ids, env, log);
  }

  /** A run whose group is there, or was started by `inits`. */
  method Join(
    ghost w0: World, w1: World, named: seq<Url>, statuses: seq<Node>, ids: seq<int>, env: Env, inits: seq<Posted>)
    returns (w: World, log: seq<Posted>, outcome: Outcome)
    requires Asked(w0, named, statuses, ids) && AllAnswer(w0, named, env) && w1 == AfterInit(w0, named, env)
    requires Ran(w0, named, env, w1, inits) && Answered(env, |named|, |inits|)
    requires Smooth(w0, named, env) ==> VotersNamed(w1, named) && (w0.groups != [] ==> w1 == w0 && inits == [])
    ensures Ran(w0, named, env, w, log)
    ensures outcome == Formed <==> CanForm(w0, named, env, |log|)
    ensures outcome == Formed ==> SomeShows(w, named)
    ensures Smooth(w0, named, env) ==> EndsWell(w0, named, w, log, outcome)
  {
    StillAsked(w0, w1, named, statuses, ids, env);
    var joins: seq<Posted>;
    w, joins, outcome := JoinLeader(w1, named, statuses, ids, env, |named| + |inits|);
    CanFormBy(w0, w1, named, env, |inits|, |joins|);
    RanOn(w0, w1, w, named, env, inits, joins);
    if Smooth(w0, named, env) { SmoothOn(w0, w1, w, named, env, inits, joins, outcome); }
    log := inits + joins;
  }

  /** All the nodes named vote, and nothing was posted if they did before. */
  ghost predicate EndsWell(w0: World, named: seq<Url>, w: World, log: seq<Posted>, outcome: Outcome) {
    && outcome == Formed && AllKnown(w0, named) && AllKnown(w, named) && AllVote(w, named)
    && (AllVote(w0, named) ==> log == [] && w == w0)
  }

  lemma SmoothOn(
    w0: World, w1: World, w: World, named: seq<Url>, env: Env, log: seq<Posted>, joins: seq<Posted>, outcome: Outcome)
    requires Smooth(w0, named, env) && (w0.groups != [] ==> w1 == w0 && log == [])
    requires EndsWell(w1, named, w, joins, outcome)
    ensures EndsWell(w0, named, w, log + joins, outcome)
  {
  }

  lemma NotAllAnswer(w: World, named: seq<Url>, env: Env)
    requires named != [] && !AllAnswer(w, named, env)
    ensures Ran(w, named, env, w, []) && !Smooth(w, named, env) && !CanForm(w, named, env, 0)
  {
  }

  /** What it takes, call by call. */
  lemma CanFormBy(w: World, w': World, named: seq<Url>, env: Env, inits: nat, joins: nat)
    requires named != [] && AllAnswer(w, named, env) && w' == AfterInit(w, named, env)
    ensures CanForm(w, named, env, inits + joins) <==>
      && Answered(env, |named|, inits) && Answered(env, |named| + inits, joins + 2)
      && SomeLeads(w', named, env)
  {
    if Answered(env, |named|, inits) && Answered(env, |named| + inits, joins + 2) {
      forall k | 0 <= k < |named| + inits + joins + 2 ensures env.faults(k).Fine? {
        assert k < |named| || |named| <= k < |named| + inits || |named| + inits <= k;
      }
    }
  }

  /** Each voter is a node named that is in the group. */
  ghost predicate VotersNamed(w: World, named: seq<Url>) {
    OneGroup(w) && |w.groups| == 1 && forall v :: v in w.groups[0].voters ==> HasMember(w, named, v)
  }

  lemma VotersAreNamed(w0: World, w: World, named: seq<Url>, env: Env)
    requires Smooth(w0, named, env) && OneGroup(w) && |w.groups| == 1
    requires OnlyNamedAdded(w0, w, named) && (w0.groups == [] || w == w0)
    ensures VotersNamed(w, named)
  {
    forall v | v in w.groups[0].voters ensures HasMember(w, named, v) { assert In(w.groups[0], v); }
  }

  /** The rest of a run, once there is a group: find its leader and join there. */
  method JoinLeader(w0: World, named: seq<Url>, statuses: seq<Node>, ids: seq<int>, env: Env, calls0: nat)
    returns (w: World, log: seq<Posted>, outcome: Outcome)
    requires Asked(w0, named, statuses, ids) && AllKnown(w0, named) && Distinct(IdsOf(w0.nodes, named))
    ensures Safe(w0, w, log, named)
    ensures outcome == Formed <==> Answered(env, calls0, |log| + 2) && SomeLeads(w0, named, env)
    ensures outcome == Formed ==> SomeShows(w, named)
    ensures VotersNamed(w0, named) && AllWell(env) ==> EndsWell(w0, named, w, log, outcome)
  {
    w, log, outcome := w0, [], Failed;
    if VotersNamed(w0, named) && AllWell(env) { LeaderIsNamed(w0, named, statuses, env); }
    if at :| LeadsAt(w0, named, env, at) { LeaderIsAsked(w0, named, statuses, env, at); }
    if env.leader(w).None? {
      return;
    }
    var leader := env.leader(w).value;
    if !exists i :: 0 <= i < |statuses| && statuses[i].id == leader {
      return;
    }
    var at :| 0 <= at < |statuses| && statuses[at].id == leader;
    w, log, outcome := JoinAt(w, named, statuses, ids, at, env, calls0);
    LeadsOnce(w0, named, env, at);
    assert outcome == Formed ==> ShowsThem(w, named, at);
  }

  /** The leader is the node at `at`. */
  method JoinAt(w0: World, named: seq<Url>, statuses: seq<Node>, ids: seq<int>, at: nat, env: Env, calls0: nat)
    returns (w: World, log: seq<Posted>, outcome: Outcome)
    requires Asked(w0, named, statuses, ids) && AllKnown(w0, named) && Distinct(IdsOf(w0.nodes, named))
    requires at < |named| && env.leader(w0) == Some(w0.nodes[named[at]].id)
    ensures Safe(w0, w, log, named)
    ensures outcome == Formed <==> Answered(env, calls0, |log| + 2) && LeadsAt(w0, named, env, at)
    ensures outcome == Formed ==> ShowsThem(w, named, at)
    ensures VotersNamed(w0, named) && AllWell(env) ==> EndsWell(w0, named, w, log, outcome)
  {
    NamedAlike(w0.nodes, named, statuses, ids);
    w, log, outcome := JoinAll(w0, named, statuses, ids, named[at], env, calls0);
    if VotersNamed(w0, named) && AllWell(env) {
      LeadsWell(w0, named, env, at);
      JoinedWell(w0, w, named, log, outcome, at);
    }
  }

  lemma LeadsWell(w: World, named: seq<Url>, env: Env, at: nat)
    requires VotersNamed(w, named) && AllWell(env) && AllKnown(w, named) && Distinct(IdsOf(w.nodes, named))
    requires at < |named| && env.leader(w) == Some(w.nodes[named[at]].id)
    ensures LeadsAt(w, named, env, at) && named[at] in w.memberOf && VotersSeen(w, named[at]) == w.groups[0].voters
  {
    LeaderSeesTheGroup(w, named, at);
    forall v | v in w.groups[0].voters ensures v in IdsOf(w.nodes, named) {
      var u :| u in named && u in w.nodes && w.nodes[u].id == v && u in w.memberOf;
      var i :| 0 <= i < |named| && named[i] == u;
      assert IdsOf(w.nodes, named)[i] == v;
    }
  }

  lemma JoinedWell(w0: World, w: World, named: seq<Url>, log: seq<Posted>, outcome: Outcome, at: nat)
    requires at < |named| && AllKnown(w0, named) && named[at] in w0.memberOf && VotersNamed(w0, named)
    requires VotersSeen(w0, named[at]) == w0.groups[0].voters
    requires VotersKept(w0, w) && OneGroup(w) && |w.groups| == 1
    requires outcome == Formed && ShowsThem(w, named, at)
    requires
      var voters := VotersSeen(w0, named[at]);
      Distinct(voters) && (forall v :: v in voters <==> v in IdsOf(w0.nodes, named)) ==> log == [] && w == w0
    ensures EndsWell(w0, named, w, log, outcome)
  {
    StillSeesTheGroup(w0, w, named, at);
  }

  /** The leader is the node with its id. */
  lemma LeadsOnce(w: World, named: seq<Url>, env: Env, at: nat)
    requires at < |named| && AllKnown(w, named) && Distinct(IdsOf(w.nodes, named))
    requires env.leader(w) == Some(w.nodes[named[at]].id)
    ensures (exists i :: LeadsAt(w, named, env, i)) <==> LeadsAt(w, named, env, at)
  {
    if i :| LeadsAt(w, named, env, i) { SameIdSameNode(IdsOf(w.nodes, named), i, at); }
  }

  /** Who leads is one of the nodes asked. */
  lemma LeaderIsAsked(w: World, named: seq<Url>, statuses: seq<Node>, env: Env, at: nat)
    requires |statuses| == |named| && LeadsAt(w, named, env, at)
    requires forall n :: 0 <= n < |named| ==> named[n] in w.nodes && statuses[n] == w.nodes[named[n]]
    ensures env.leader(w).Some? && exists i :: 0 <= i < |statuses| && statuses[i].id == env.leader(w).value
  {
    assert statuses[at].id == env.leader(w).value;
  }

  lemma StillSeesTheGroup(w0: World, w: World, named: seq<Url>, at: nat)
    requires at < |named| && AllKnown(w0, named) && named[at] in w0.memberOf && VotersKept(w0, w)
    requires OneGroup(w) && |w.groups| == 1
    ensures VotersSeen(w, named[at]) == w.groups[0].voters
  {
    assert named[at] in named;
  }

  lemma RanOn(w0: World, w1: World, w: World, named: seq<Url>, env: Env, log: seq<Posted>, joins: seq<Posted>)
    requires Ran(w0, named, env, w1, log) && named != [] && Safe(w1, w, joins, named)
    ensures Ran(w0, named, env, w, log + joins)
  {
    VotersKeptOn(w0, w1, w);
    OnlyNamedOn(w0, w1, w, named);
  }

  /** `/init` on the first node, unless it shows voters. */
  method StartGroup(w0: World, named: seq<Url>, env: Env) returns (w: World, log: seq<Posted>, ok: bool)
    requires named != [] && AllAnswer(w0, named, env)
    ensures Ran(w0, named, env, w, log)
    ensures Smooth(w0, named, env) ==> ok && VotersNamed(w, named) && (w0.groups != [] ==> w == w0 && log == [])
    ensures w == AfterInit(w0, named, env)
    ensures log == (if VotersSeen(w0, named[0]) == [] then [Posted(w0, PostInit(named[0]))] else [])
    ensures ok <==> Answered(env, |named|, |log|)
    ensures !HasGroup(w0, named[0]) && env.faults(|named|).ReplyLost? ==>
      !ok && w == Send(w0, PostInit(named[0]), ReplyLost)
  {
    w, log, ok := w0, [], true;
    if VotersSeen(w, named[0]) == [] {
      var p, f := PostInit(named[0]), env.faults(|named|);
      SendKeeps(w, p, f, named[0]);
      log := [Posted(w, p)];
      w := Send(w, p, f);
      // 200 and 409 go on; a refused or lost call does not.
      ok := f.Fine?;
      assert named[0] in named && IsNamed(w0, named, named[0]);
    }
    if Smooth(w0, named, env) { VotersAreNamed(w0, w, named, env); }
  }

  /** When all is well the leader is one of the nodes named, and a member. */
  lemma LeaderIsNamed(w: World, named: seq<Url>, statuses: seq<Node>, env: Env)
    requires VotersNamed(w, named) && AllWell(env) && |statuses| == |named|
    requires forall n :: 0 <= n < |named| ==> named[n] in w.nodes && statuses[n] == w.nodes[named[n]]
    ensures env.leader(w).Some? && HasMember(w, named, env.leader(w).value)
    ensures exists i :: 0 <= i < |statuses| && statuses[i].id == env.leader(w).value
  {
    var v := env.leader(w).value;
    var u :| u in named && u in w.nodes && w.nodes[u].id == v && u in w.memberOf;
    var i :| 0 <= i < |named| && named[i] == u;
    assert statuses[i].id == v;
  }

  /** A named node with a member's id is that member, so it shows the group. */
  lemma LeaderSeesTheGroup(w: World, named: seq<Url>, at: nat)
    requires at < |named| && (forall u :: u in named ==> u in w.nodes) && Distinct(IdsOf(w.nodes, named))
    requires OneGroup(w) && |w.groups| == 1 && HasMember(w, named, w.nodes[named[at]].id)
    ensures named[at] in w.memberOf && VotersSeen(w, named[at]) == w.groups[0].voters
  {
    var u :| u in named && u in w.nodes && w.nodes[u].id == w.nodes[named[at]].id && u in w.memberOf;
    var i :| 0 <= i < |named| && named[i] == u;
    SameIdSameNode(IdsOf(w.nodes, named), i, at);
  }

  lemma SameIdSameNode(ids: seq<int>, i: nat, j: nat)
    requires Distinct(ids) && i < |ids| && j < |ids| && ids[i] == ids[j]
    ensures i == j
  {
  }

  /** The ids gathered are the named nodes'. */
  lemma NamedAlike(nodes: map<Url, Node>, named: seq<Url>, statuses: seq<Node>, ids: seq<int>)
    requires (forall u :: u in named ==> u in nodes) && |statuses| == |named|
    requires forall n :: 0 <= n < |named| ==> statuses[n] == nodes[named[n]]
    requires forall id :: id in ids <==> exists n :: 0 <= n < |statuses| && statuses[n].id == id
    ensures forall id :: id in ids <==> id in IdsOf(nodes, named)
  {
    forall id ensures id in ids <==> id in IdsOf(nodes, named) {
      if id in ids {
        var n :| 0 <= n < |statuses| && statuses[n].id == id;
        assert IdsOf(nodes, named)[n] == id;
      }
      if id in IdsOf(nodes, named) {
        var n :| 0 <= n < |named| && IdsOf(nodes, named)[n] == id;
        assert statuses[n].id == id;
      }
    }
  }

  /** Every node's status, and their ids, sorted. */
  ghost predicate Asked(w: World, named: seq<Url>, statuses: seq<Node>, ids: seq<int>) {
    && named != [] && |statuses| == |named|
    && (forall n :: 0 <= n < |named| ==> named[n] in w.nodes && statuses[n] == w.nodes[named[n]])
    && ids != [] && Distinct(ids) && InOrder(ids, AtMost)
    && (forall id :: id in ids <==> exists n :: 0 <= n < |statuses| && statuses[n].id == id)
  }

  lemma StillAsked(w: World, w': World, named: seq<Url>, statuses: seq<Node>, ids: seq<int>, env: Env)
    requires Asked(w, named, statuses, ids) && AllAnswer(w, named, env) && w'.nodes == w.nodes
    ensures Asked(w', named, statuses, ids) && AllKnown(w', named) && Distinct(IdsOf(w'.nodes, named))
  {
  }

  /** Those, or a refusal. */
  method Gather(w: World, named: seq<Url>, env: Env) returns (ok: bool, statuses: seq<Node>, ids: seq<int>)
    requires named != []
    ensures ok <==> AllAnswer(w, named, env)
    ensures ok ==> Asked(w, named, statuses, ids)
  {
    ok, statuses, ids := false, [], [];
    for i := 0 to |named|
      invariant |statuses| == |ids| == i
      invariant forall n :: 0 <= n < i ==> env.faults(n).Fine?
      invariant forall n :: 0 <= n < i ==> named[n] in w.nodes && !NoAddress(w.nodes[named[n]].addr)
      invariant forall n :: 0 <= n < i ==> statuses[n] == w.nodes[named[n]] && ids[n] == statuses[n].id
    {
      if env.faults(i) != Fine || named[i] !in w.nodes || NoAddress(w.nodes[named[i]].addr) {
        assert named[i] in named;
        return;
      }
      statuses := statuses + [w.nodes[named[i]]];
      ids := ids + [w.nodes[named[i]].id];
    }
    assert ids == IdsOf(w.nodes, named);
    assert forall id :: id in ids <==> exists n :: 0 <= n < |statuses| && statuses[n].id == id;
    ok, ids := SortIds(ids);
  }

  /** The ids sorted, and whether they differ, neighbour by neighbour. */
  method SortIds(unsorted: seq<int>) returns (ok: bool, ids: seq<int>)
    ensures ok <==> Distinct(unsorted)
    ensures |ids| == |unsorted| && InOrder(ids, AtMost) && (ok ==> Distinct(ids))
    ensures forall id :: id in ids <==> id in unsorted
  {
    ids := Sort(unsorted, AtMost);
    SortPutsInOrder(unsorted, AtMost);
    NeighboursTellDistinct(ids);
    SortKeepsElements(unsorted, AtMost);
    if Distinct(ids) { SameElementsDistinct(ids, unsorted); }
    ok := forall i :: 0 <= i < |ids| - 1 ==> ids[i] != ids[i + 1];
  }

  /** What the rest of a run keeps: it starts no group. */
  ghost predicate Safe(w: World, w': World, log: seq<Posted>, named: seq<Url>)
    requires named != []
  {
    && VotersKept(w, w') && OnlyNamedAdded(w, w', named) && AllProper(log, named[0])
    && |w'.groups| == |w.groups| && (OneGroup(w) ==> OneGroup(w'))
  }

  lemma SafeOn(w: World, w': World, log: seq<Posted>, named: seq<Url>, p: Post, f: Fault)
    requires named != [] && Safe(w, w', log, named)
    requires Proper(Posted(w', p), named[0]) && !p.PostInit?
    requires p.PostAddLearner? ==> exists u :: u in named && u in w'.nodes && w'.nodes[u] == Node(p.id, p.addr)
    requires p.PostChangeMembership? ==> p.ids != []
    ensures Safe(w, Send(w', p, f), log + [Posted(w', p)], named)
  {
    var w'' := Send(w', p, f);
    SendKeeps(w', p, f, named[0]);
    VotersKeptOn(w, w', w'');
    if p.PostAddLearner? {
      LearnerIsNamed(w', p, f, named);
    } else {
      PromotedWereIn(w', p, f, named);
    }
    OnlyNamedOn(w, w', w'', named);
  }

  lemma LearnerIsNamed(w: World, p: Post, f: Fault, named: seq<Url>)
    requires p.PostAddLearner? && exists u :: u in named && u in w.nodes && w.nodes[u] == Node(p.id, p.addr)
    ensures OnlyNamedAdded(w, Send(w, p, f), named)
  {
    var u :| u in named && u in w.nodes && w.nodes[u] == Node(p.id, p.addr);
    if Accepts(w, p) && Lands(f) {
      var w' := Carry(w, p);
      assert u in w'.memberOf;
      assert HasMember(w', named, p.id);
    }
  }

  lemma PromotedWereIn(w: World, p: Post, f: Fault, named: seq<Url>)
    requires p.PostChangeMembership? && Proper(Posted(w, p), p.url)
    ensures OnlyNamedAdded(w, Send(w, p, f), named)
  {
  }

  /** On the leader: make every node named a voter that is not one yet. */
  method JoinAll(w0: World, named: seq<Url>, statuses: seq<Node>, ids: seq<int>, leaderUrl: Url, env: Env, calls0: nat)
    returns (w: World, log: seq<Posted>, outcome: Outcome)
    requires Asked(w0, named, statuses, ids) && leaderUrl in named
    ensures Safe(w0, w, log, named)
    ensures outcome == Formed <==>
      && Answered(env, calls0, |log| + 2) && w0.nodes[leaderUrl].id in VotersSeen(w0, leaderUrl)
      && forall v :: v in VotersSeen(w0, leaderUrl) ==> v in ids
    ensures outcome == Formed ==> forall id :: id in VotersSeen(w, leaderUrl) <==> id in ids
    ensures
      var voters := VotersSeen(w0, leaderUrl);
      Distinct(voters) && (forall v :: v in voters <==> v in ids) ==> log == [] && w == w0
  {
    w, log, outcome := w0, [], Failed;
    if env.faults(calls0) != Fine {
      return;
    }
    var voters := VotersSeen(w, leaderUrl);
    if exists v :: v in voters && v !in ids {
      return;
    }
    var ok;
    w, log, ok := Level(w0, named, statuses, ids, leaderUrl, env, calls0 + 1);
    AnsweredOn(env, calls0, |log|);
    if ok && env.faults(calls0 + 1 + |log|) == Fine {
      outcome := Formed;
    }
  }

  /** Nothing when the ids vote already; otherwise they are made to. */
  method Level(w0: World, named: seq<Url>, statuses: seq<Node>, ids: seq<int>, leaderUrl: Url, env: Env, calls0: nat)
    returns (w: World, log: seq<Posted>, ok: bool)
    requires Asked(w0, named, statuses, ids) && leaderUrl in named
    requires forall v :: v in VotersSeen(w0, leaderUrl) ==> v in ids
    ensures Safe(w0, w, log, named)
    ensures ok <==> Answered(env, calls0, |log|) && w0.nodes[leaderUrl].id in VotersSeen(w0, leaderUrl)
    ensures ok ==> forall id :: id in VotersSeen(w, leaderUrl) <==> id in ids
    ensures Distinct(VotersSeen(w0, leaderUrl)) && (forall id :: id in ids ==> id in VotersSeen(w0, leaderUrl)) ==>
      log == [] && w == w0
  {
    var voters := VotersSeen(w0, leaderUrl);
    SortedAlike(voters, ids);
    if Sort(voters, AtMost) == ids {
      LeaderIsListed(w0, named, statuses, ids, leaderUrl);
      w, log, ok := w0, [], true;
    } else {
      w, log, ok := MakeVoters(w0, named, statuses, ids, leaderUrl, env, calls0);
    }
  }

  lemma LeaderIsListed(w: World, named: seq<Url>, statuses: seq<Node>, ids: seq<int>, url: Url)
    requires Asked(w, named, statuses, ids) && url in named
    ensures w.nodes[url].id in ids
  {
    var n :| 0 <= n < |named| && named[n] == url;
    assert statuses[n].id == w.nodes[url].id;
  }

  /** A call, `n` more and one after them. */
  lemma AnsweredOn(env: Env, from: nat, n: nat)
    ensures Answered(env, from, n + 2) <==>
      env.faults(from).Fine? && Answered(env, from + 1, n) && env.faults(from + 1 + n).Fine?
  {
    if env.faults(from).Fine? && Answered(env, from + 1, n) && env.faults(from + 1 + n).Fine? {
      forall k | from <= k < from + n + 2 ensures env.faults(k).Fine? {
        assert k == from || k == from + 1 + n || from + 1 <= k < from + 1 + n;
      }
    }
  }

  /** Learners first, then the ids as the voters. */
  method MakeVoters(
    w0: World, named: seq<Url>, statuses: seq<Node>, ids: seq<int>, leaderUrl: Url, env: Env, calls0: nat)
    returns (w: World, log: seq<Posted>, ok: bool)
    requires Asked(w0, named, statuses, ids) && leaderUrl in named
    requires forall v :: v in VotersSeen(w0, leaderUrl) ==> v in ids
    ensures Safe(w0, w, log, named)
    ensures ok <==> Answered(env, calls0, |log|) && w0.nodes[leaderUrl].id in VotersSeen(w0, leaderUrl)
    ensures ok ==> VotersSeen(w, leaderUrl) == ids
  {
    w, log, ok := AddLearners(w0, named, statuses, leaderUrl, env, calls0);
    if !ok {
      return;
    }
    var p := PostChangeMembership(leaderUrl, ids);
    var f := env.faults(calls0 + |log|);
    SafeOn(w0, w, log, named, p, f);
    log := log + [Posted(w, p)];
    ok := Succeeds(w, p, f);
    w := Send(w, p, f);
  }

  /** `/add-learner` for each node that is not a voter, stopping at a failure. */
  method AddLearners(w0: World, named: seq<Url>, statuses: seq<Node>, leaderUrl: Url, env: Env, calls0: nat)
    returns (w: World, log: seq<Posted>, ok: bool)
    requires named != [] && |statuses| == |named| && leaderUrl in w0.nodes
    requires forall n :: 0 <= n < |named| ==> named[n] in w0.nodes && statuses[n] == w0.nodes[named[n]]
    ensures Safe(w0, w, log, named)
    ensures SameGroup(w0, w, leaderUrl) && VotersSeen(w, leaderUrl) == VotersSeen(w0, leaderUrl)
    ensures ok ==> forall n :: 0 <= n < |statuses| ==>
      statuses[n].id in VotersSeen(w, leaderUrl) || statuses[n].id in LearnersSeen(w, leaderUrl)
    ensures ok <==> Answered(env, calls0, |log|) && (log == [] || w0.nodes[leaderUrl].id in VotersSeen(w0, leaderUrl))
  {
    w, log, ok := w0, [], false;
    var voters := VotersSeen(w, leaderUrl);
    for i := 0 to |statuses|
      invariant Safe(w0, w, log, named)
      invariant Answered(env, calls0, |log|) && (log == [] || w0.nodes[leaderUrl].id in voters)
      invariant SameGroup(w0, w, leaderUrl) && VotersSeen(w, leaderUrl) == voters
      invariant forall n :: 0 <= n < i ==> statuses[n].id in voters || statuses[n].id in LearnersSeen(w, leaderUrl)
    {
      if statuses[i].id !in voters {
        var p := PostAddLearner(leaderUrl, statuses[i].id, statuses[i].addr);
        var f := env.faults(calls0 + |log|);
        assert named[i] in named && w.nodes[named[i]] == Node(p.id, p.addr);
        SafeOn(w0, w, log, named, p, f);
        log := log + [Posted(w, p)];
        var sent := Succeeds(w, p, f);
        w := Send(w, p, f);
        if !sent {
          return;
        }
      }
    }
    ok := true;
  }

  ghost predicate SameGroup(w: World, w': World, url: Url) {
    w'.nodes == w.nodes && (HasGroup(w', url) <==> HasGroup(w, url)) &&
    (HasGroup(w, url) ==> w'.memberOf[url] == w.memberOf[url])
  }

  /** Sorted lists of distinct ids are equal exactly when they hold the same ids. */
  lemma SortedAlike(voters: seq<int>, ids: seq<int>)
    requires Distinct(ids) && InOrder(ids, AtMost)
    ensures Sort(voters, AtMost) == ids ==> forall v :: v in voters <==> v in ids
    ensures Distinct(voters) && (forall v :: v in voters <==> v in ids) ==> Sort(voters, AtMost) == ids
  {
    assert forall v :: v in Sort(voters, AtMost) <==> v in multiset(voters);
    assert forall v :: v in voters <==> v in multiset(voters);
    if Distinct(voters) && forall v :: v in voters <==> v in ids {
      SortSameElements(voters, ids);
      SortPutsInOrder(ids, AtMost);
      SortedIsUnique(Sort(ids, AtMost), ids, AtMost);
    }
  }

  // ----- run after run ----------------------------------------------------

  datatype Run = Run(named: seq<Url>, env: Env)

  /** A world no installer has touched. */
  ghost predicate Fresh(w: World) { w.groups == [] && w.memberOf == map[] }

  /** The worlds before, between and after runs, and what each run posted. */
  ghost predicate Trace(worlds: seq<World>, runs: seq<Run>, logs: seq<seq<Posted>>) {
    && |worlds| == |runs| + 1 && |logs| == |runs|
    && forall i :: 0 <= i < |runs| ==> Ran(worlds[i], runs[i].named, runs[i].env, worlds[i + 1], logs[i])
  }

  /** There is no group yet, or the run does not start one. */
  ghost predicate StartsNoSecond(w: World, r: Run) { w.groups == [] || !Starts(w, r.named, r.env) }

  /** Either there is one group, or more were started. */
  lemma {:induction false} OneOrMore(worlds: seq<World>, runs: seq<Run>, logs: seq<seq<Posted>>, n: nat)
    requires Trace(worlds, runs, logs) && Fresh(worlds[0]) && n <= |runs|
    ensures OneGroup(worlds[n]) || |worlds[n].groups| > 1
    ensures OneGroup(worlds[n]) <==> forall i :: 0 <= i < n ==> StartsNoSecond(worlds[i], runs[i])
  {
    if n > 0 { OneOrMore(worlds, runs, logs, n - 1); }
  }

  ghost predicate AllNameFirst(runs: seq<Run>, first: Url) {
    forall r :: r in runs && r.named != [] ==> r.named[0] == first
  }

  /** Named first each time, one node is in the group from its start. */
  lemma {:induction false} SameFirstIsIn(worlds: seq<World>, runs: seq<Run>, logs: seq<seq<Posted>>, first: Url, n: nat)
    requires Trace(worlds, runs, logs) && Fresh(worlds[0]) && n <= |runs|
    requires AllNameFirst(runs, first)
    ensures OneGroup(worlds[n]) && (worlds[n].groups == [] || first in worlds[n].memberOf)
  {
    if n > 0 {
      SameFirstIsIn(worlds, runs, logs, first, n - 1);
      assert runs[n - 1] in runs;
    }
  }

  /** Every voter and learner is a node some run named, and is in the group. */
  lemma {:induction false} AllWereNamed(
    worlds: seq<World>, runs: seq<Run>, logs: seq<seq<Posted>>, n: nat, g: nat, v: int)
    requires Trace(worlds, runs, logs) && Fresh(worlds[0]) && n <= |runs|
    requires g < |worlds[n].groups| && In(worlds[n].groups[g], v)
    ensures exists i :: 0 <= i < n && HasMember(worlds[n], runs[i].named, v)
  {
    if n > 0 && !HasMember(worlds[n], runs[n - 1].named, v) {
      AllWereNamed(worlds, runs, logs, n - 1, g, v);
      var i :| 0 <= i < n - 1 && HasMember(worlds[n - 1], runs[i].named, v);
      MemberStays(worlds[n - 1], worlds[n], runs[i].named, v);
    }
  }

  lemma {:induction false} KeptOver(worlds: seq<World>, runs: seq<Run>, logs: seq<seq<Posted>>, n: nat)
    requires Trace(worlds, runs, logs) && n <= |runs|
    ensures VotersKept(worlds[0], worlds[n])
  {
    if n > 0 {
      KeptOver(worlds, runs, logs, n - 1);
      VotersKeptOn(worlds[0], worlds[n - 1], worlds[n]);
    }
  }

  /** Group-formation safety, for any runs, each cut off anywhere: no voter is
      ever taken out and every request is proper; and at most one group is ever
      started exactly when no run, finding a group, has named first a node in
      none and reached it with `/init`. Naming the same node first is enough. */
  method InitAgainAndAgain(w0: World, runs: seq<Run>) returns (worlds: seq<World>, logs: seq<seq<Posted>>)
    requires Fresh(w0)
    ensures Trace(worlds, runs, logs) && worlds[0] == w0
    ensures OneGroup(worlds[|runs|]) <==> forall i :: 0 <= i < |runs| ==> StartsNoSecond(worlds[i], runs[i])
    ensures (exists first :: AllNameFirst(runs, first)) ==> OneGroup(worlds[|runs|])
    ensures VotersKept(w0, worlds[|runs|])
    ensures forall g, v :: 0 <= g < |worlds[|runs|].groups| && In(worlds[|runs|].groups[g], v) ==>
      exists i :: 0 <= i < |runs| && HasMember(worlds[|runs|], runs[i].named, v)
  {
    worlds, logs := [w0], [];
    for i := 0 to |runs|
      invariant Trace(worlds, runs[..i], logs) && worlds[0] == w0
    {
      var w, log, outcome := InitCluster(worlds[i], runs[i].named, runs[i].env);
      worlds, logs := worlds + [w], logs + [log];
    }
    assert runs[..|runs|] == runs;
    OneOrMore(worlds, runs, logs, |runs|);
    KeptOver(worlds, runs, logs, |runs|);
    if first :| AllNameFirst(runs, first) {
      SameFirstIsIn(worlds, runs, logs, first, |runs|);
    }
    forall g, v | 0 <= g < |worlds[|runs|].groups| && In(worlds[|runs|].groups[g], v)
      ensures exists i :: 0 <= i < |runs| && HasMember(worlds[|runs|], runs[i].named, v)
    {
      AllWereNamed(worlds, runs, logs, |runs|, g, v);
    }
  }

  /** Convergence: after any runs, cut off anywhere, that left at most one group,
      one whole run that names every node named before, first one in the group if
      there is one, makes the voters exactly the nodes it names, and another like
      it posts nothing. */
  method InitConverges(w0: World, runs: seq<Run>, last: Run, again: Env)
    returns (worlds: seq<World>, logs: seq<seq<Posted>>, w: World, log: seq<Posted>)
    requires Fresh(w0) && last.named != [] && AllKnown(w0, last.named) && Distinct(IdsOf(w0.nodes, last.named))
    requires forall r, u :: r in runs && u in r.named ==> u in last.named
    requires AllWell(last.env) && AllWell(again)
    ensures Trace(worlds, runs, logs) && worlds[0] == w0
    ensures OneGroup(worlds[|runs|]) && FirstIsIn(worlds[|runs|], last.named) ==>
      AllKnown(w, last.named) && AllVote(w, last.named) && log == []
  {
    worlds, logs := InitAgainAndAgain(w0, runs);
    ghost var e := worlds[|runs|];
    if OneGroup(e) && FirstIsIn(e, last.named) { LastIsSmooth(worlds, runs, logs, last); }
    var outcome;
    w, log, outcome := InitCluster(worlds[|runs|], last.named, last.env);
    if OneGroup(e) && FirstIsIn(e, last.named) { SmoothAgain(e, w, log, last, again); }
    w, log, outcome := InitCluster(w, last.named, again);
  }

  lemma LastIsSmooth(worlds: seq<World>, runs: seq<Run>, logs: seq<seq<Posted>>, last: Run)
    requires Trace(worlds, runs, logs) && Fresh(worlds[0]) && last.named != [] && AllWell(last.env)
    requires AllKnown(worlds[0], last.named) && Distinct(IdsOf(worlds[0].nodes, last.named))
    requires forall r, u :: r in runs && u in r.named ==> u in last.named
    requires OneGroup(worlds[|runs|]) && FirstIsIn(worlds[|runs|], last.named)
    ensures Smooth(worlds[|runs|], last.named, last.env) && AllNamed(worlds[|runs|], last.named)
  {
    var e := worlds[|runs|];
    KeptOver(worlds, runs, logs, |runs|);
    forall g, v | 0 <= g < |e.groups| && In(e.groups[g], v) ensures HasMember(e, last.named, v) {
      AllWereNamed(worlds, runs, logs, |runs|, g, v);
      var i :| 0 <= i < |runs| && HasMember(e, runs[i].named, v);
      assert runs[i] in runs;
    }
    assert |e.groups| == 1 ==> forall v :: v in e.groups[0].voters ==> In(e.groups[0], v);
  }

  ghost predicate AllNamed(w: World, named: seq<Url>) {
    forall g, v :: 0 <= g < |w.groups| && In(w.groups[g], v) ==> HasMember(w, named, v)
  }

  lemma SmoothAgain(e: World, w: World, log: seq<Posted>, last: Run, again: Env)
    requires Smooth(e, last.named, last.env) && AllWell(again) && Ran(e, last.named, last.env, w, log)
    requires AllNamed(e, last.named) && AllVote(w, last.named)
    ensures Smooth(w, last.named, again)
  {
    assert e.groups != [] ==> HasGroup(e, last.named[0]);
    assert OneGroup(w) && FirstIsIn(w, last.named);
    forall v | v in w.groups[0].voters ensures HasMember(w, last.named, v) {
      VoterIsNamed(e, w, last.named, v);
    }
  }

  lemma VoterIsNamed(e: World, w: World, named: seq<Url>, v: int)
    requires VotersKept(e, w) && OnlyNamedAdded(e, w, named) && AllNamed(e, named)
    requires |w.groups| == 1 && v in w.groups[0].voters
    ensures HasMember(w, named, v)
  {
    assert In(w.groups[0], v);
    assert 0 < |e.groups| && In(e.groups[0], v) ==> HasMember(e, named, v);
    MemberStays(e, w, named, v);
  }

  /** Naming the same nodes in another order is not safe: a run on `a` and `b` cut
      off after its `/init`, and then a run on `b` and `a`, leave two groups. */
  method AnotherFirstStartsAnotherGroup(w0: World, a: Url, b: Url) returns (w: World)
    requires Fresh(w0) && AllKnown(w0, [a, b]) && AllKnown(w0, [b, a]) && w0.nodes[a].id != w0.nodes[b].id
    ensures |w.groups| == 2
  {
    var cut := Env(n => if n == 2 then ReplyLost else Fine, _ => None);
    var log, outcome;
    w, log, outcome := InitCluster(w0, [a, b], cut);
    w, log, outcome := InitCluster(w, [b, a], Env(_ => Fine, _ => None));
  }
}
