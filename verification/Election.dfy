/**
 Leader election of the cluster (waf-cluster/src/election/mod.rs and the
 message handlers in waf-cluster/src/transport).

 `NodeState` is one node's election state; the functions on it are the
 operations of `ElectionManager`, each run to completion.  `Cluster` puts the
 nodes together with a network that may drop, repeat and reorder messages.
 */
module Election {
  import opened Basics

  type NodeId = string

  datatype Role = Main | Worker | Candidate

  datatype NodeState = NodeState(
    term: nat,
    votedFor: Option<NodeId>,
    votes: map<nat, set<NodeId>>,   // term -> voters for this node
    role: Role)

  // ---------------------------------------------------------------------------
  // Operations of one node
  // ---------------------------------------------------------------------------

  function VotesIn(n: NodeState, term: nat): set<NodeId> {
    if term in n.votes then n.votes[term] else {}
  }

  /** `increment_term_and_vote_for_self`, after the switch to Candidate. */
  function StartElection(me: NodeId, n: NodeState): NodeState {
    var t := n.term + 1;
    var kept := map k | k in n.votes && k >= t :: n.votes[k];
    NodeState(t, Some(me), kept[t := VotesIn(n, t) + {me}], Candidate)
  }

  /** `record_vote_for_me`: votes below the current term are dropped. */
  function RecordVote(n: NodeState, term: nat, voter: NodeId): NodeState {
    if term < n.term then n else n.(votes := n.votes[term := VotesIn(n, term) + {voter}])
  }

  /** `is_majority` */
  predicate IsMajority(votes: nat, total: nat) {
    total > 0 && votes > total / 2
  }

  /** `process_vote`: the new state and whether the vote is granted. */
  function ProcessVote(n: NodeState, term: nat, candidate: NodeId): (NodeState, bool) {
    if term < n.term then (n, false)
    else
      var m := if term > n.term then n.(term := term, votedFor := None) else n;
      if m.votedFor.None? || m.votedFor.value == candidate
      then (m.(votedFor := Some(candidate)), true)
      else (m, false)
  }

  /** `process_result` followed by the handler's role transition. */
  function ProcessResult(me: NodeId, n: NodeState, term: nat, elected: NodeId): NodeState {
    if term < n.term then n.(role := Worker)
    else
      var m := if term > n.term then n.(term := term, votedFor := None) else n;
      m.(role := if elected == me then Main else Worker)
  }

  /** The manager object itself, proved against the functions above. */
  class ElectionManager {
    const nodeId: NodeId
    var term: nat
    var votedFor: Option<NodeId>
    var votesForMe: map<nat, set<NodeId>>
    var role: Role

    ghost function State(): NodeState
      reads this
    {
      NodeState(term, votedFor, votesForMe, role)
    }

    constructor (id: NodeId)
      ensures nodeId == id && State() == NodeState(0, None, map[], Worker)
    {
      nodeId, term, votedFor, votesForMe, role := id, 0, None, map[], Worker;
    }

    method IncrementTermAndVoteForSelf() returns (newTerm: nat)
      modifies this
      ensures State() == StartElection(nodeId, old(State()))
      ensures newTerm == term == old(term) + 1 && votedFor == Some(nodeId) && role == Candidate
      ensures forall k :: k in votesForMe <==> k == newTerm || (k > newTerm && k in old(votesForMe))
      ensures forall k <- votesForMe :: k > newTerm ==> votesForMe[k] == old(votesForMe)[k]
      ensures votesForMe[newTerm] == {nodeId} + if newTerm in old(votesForMe) then old(votesForMe)[newTerm] else {}
    {
      role := Candidate;
      term := term + 1;
      newTerm := term;
      votedFor := Some(nodeId);
      var mine := if term in votesForMe then votesForMe[term] else {};
      votesForMe := map k | k in votesForMe && k >= newTerm :: votesForMe[k];
      votesForMe := votesForMe[newTerm := mine + {nodeId}];
    }

    method RecordVoteForMe(t: nat, voter: NodeId) returns (isNew: bool)
      modifies this
      ensures State() == RecordVote(old(State()), t, voter)
      ensures isNew <==> t >= term && !(t in old(votesForMe) && voter in old(votesForMe)[t])
      ensures term == old(term) && votedFor == old(votedFor) && role == old(role)
      ensures votesForMe == if t < term then old(votesForMe) else
        old(votesForMe)[t := (if t in old(votesForMe) then old(votesForMe)[t] else {}) + {voter}]
    {
      if t < term { return false; }
      var bucket := if t in votesForMe then votesForMe[t] else {};
      isNew := voter !in bucket;
      votesForMe := votesForMe[t := bucket + {voter}];
    }

    method HandleVoteRequest(t: nat, candidate: NodeId) returns (granted: bool)
      modifies this
      ensures (State(), granted) == ProcessVote(old(State()), t, candidate)
      ensures granted <==> t > old(term) || (t == old(term) && old(votedFor) in {None, Some(candidate)})
      ensures term == (if t > old(term) then t else old(term)) && role == old(role) && votesForMe == old(votesForMe)
      ensures votedFor == if granted then Some(candidate) else old(votedFor)
    {
      if t < term { return false; }
      if t > term {
        term := t;
        votedFor := None;
      }
      if votedFor.None? || votedFor.value == candidate {
        votedFor := Some(candidate);
        return true;
      }
      return false;
    }

    method HandleResult(t: nat, elected: NodeId)
      modifies this
      ensures State() == ProcessResult(nodeId, old(State()), t, elected)
      ensures role == if t >= old(term) && elected == nodeId then Main else Worker
      ensures t > old(term) ==> term == t && votedFor == None
      ensures t <= old(term) ==> term == old(term) && votedFor == old(votedFor)
      ensures votesForMe == old(votesForMe)
    {
      if t < term {
        role := Worker;
        return;
      }
      if t > term {
        term := t;
        votedFor := None;
      }
      role := if elected == nodeId then Main else Worker;
    }
  }

  // ---------------------------------------------------------------------------
  // The cluster
  // ---------------------------------------------------------------------------

  datatype Message =
    | Request(term: nat, candidate: NodeId)
    | Grant(term: nat, candidate: NodeId, voter: NodeId)
    | Result(term: nat, elected: NodeId)

  /** What a candidate remembers while it waits: its term and its node count. */
  datatype Ballot = Ballot(term: nat, total: nat)

  /** Record that `voter` voted for `candidate` in `term`. */
  datatype Vote = Vote(voter: NodeId, term: nat, candidate: NodeId)

  /** Record of a won election. */
  datatype Win = Win(term: nat, node: NodeId, voters: set<NodeId>, total: nat)

  /** `sent` only grows: a message may be delivered any number of times, at any
      time, or never.  `cast` and `wins` are history. */
  datatype Cluster = Cluster(
    nodes: map<NodeId, NodeState>,
    ballots: map<NodeId, Ballot>,
    sent: set<Message>,
    cast: set<Vote>,
    wins: set<Win>)

  datatype Step =
    | Start(node: NodeId, total: nat)
    | DeliverRequest(msg: Message, to: NodeId)
    | DeliverGrant(msg: Message)
    | DeliverResult(msg: Message, to: NodeId)
    | Tally(node: NodeId)
    | ClaimAlone(node: NodeId)

  /** A Main sleeps through the election loop.  `total_nodes() <= 1` takes the
      single-node path, so an election has a count of at least two. */
  predicate Enabled(s: Cluster, step: Step) {
    match step
    case Start(n, total) => n in s.nodes && n !in s.ballots && s.nodes[n].role != Main && total >= 2
    case DeliverRequest(m, to) => m in s.sent && m.Request? && to in s.nodes
    case DeliverGrant(m) => m in s.sent && m.Grant? && m.candidate in s.nodes
    case DeliverResult(m, to) => m in s.sent && m.Result? && to in s.nodes
    case Tally(n) => n in s.nodes && n in s.ballots
    case ClaimAlone(n) => n in s.nodes && n !in s.ballots && s.nodes[n].role != Main
  }

  function SetNode(s: Cluster, n: NodeId, v: NodeState): Cluster {
    s.(nodes := s.nodes[n := v])
  }

  function OnStart(s: Cluster, n: NodeId, total: nat): Cluster
    requires n in s.nodes
  {
    var v := StartElection(n, s.nodes[n]);
    SetNode(s, n, v).(
      ballots := s.ballots[n := Ballot(v.term, total)],
      sent := s.sent + {Request(v.term, n)},
      cast := s.cast + {Vote(n, v.term, n)})
  }

  function OnRequest(s: Cluster, term: nat, candidate: NodeId, to: NodeId): Cluster
    requires to in s.nodes
  {
    var (v, granted) := ProcessVote(s.nodes[to], term, candidate);
    var s' := SetNode(s, to, v);
    if granted
    then s'.(sent := s.sent + {Grant(term, candidate, to)}, cast := s.cast + {Vote(to, term, candidate)})
    else s'
  }

  function OnTally(s: Cluster, n: NodeId): Cluster
    requires n in s.nodes && n in s.ballots
  {
    var b := s.ballots[n];
    var voters := VotesIn(s.nodes[n], b.term);
    var s' := s.(ballots := s.ballots - {n});
    if IsMajority(|voters|, b.total)
    then SetNode(s', n, s.nodes[n].(role := Main)).(
           sent := s.sent + {Result(b.term, n)},
           wins := s.wins + {Win(b.term, n, voters, b.total)})
    else SetNode(s', n, s.nodes[n].(role := Worker))
  }

  function Apply(s: Cluster, step: Step): Cluster
    requires Enabled(s, step)
  {
    match step
    case Start(n, total) => OnStart(s, n, total)
    case DeliverRequest(m, to) => OnRequest(s, m.term, m.candidate, to)
    case DeliverGrant(m) => SetNode(s, m.candidate, RecordVote(s.nodes[m.candidate], m.term, m.voter))
    case DeliverResult(m, to) => SetNode(s, to, ProcessResult(to, s.nodes[to], m.term, m.elected))
    case Tally(n) => OnTally(s, n)
    case ClaimAlone(n) => SetNode(s, n, s.nodes[n].(role := Main))
  }

  /** Every node starts at term 0 without a vote; roles come from configuration. */
  ghost predicate Init(s: Cluster) {
    && s.ballots == map[] && s.sent == {} && s.cast == {} && s.wins == {}
    && forall n <- s.nodes :: s.nodes[n].term == 0 && s.nodes[n].votedFor.None? && s.nodes[n].votes == map[]
  }

  predicate ValidRun(s: Cluster, steps: seq<Step>)
    decreases |steps|, 0
  {
    steps == [] ||
    (ValidRun(s, steps[..|steps| - 1]) && Enabled(Exec(s, steps[..|steps| - 1]), steps[|steps| - 1]))
  }

  function Exec(s: Cluster, steps: seq<Step>): Cluster
    requires ValidRun(s, steps)
    decreases |steps|, 1
  {
    if steps == [] then s else Apply(Exec(s, steps[..|steps| - 1]), steps[|steps| - 1])
  }

  // ---------------------------------------------------------------------------
  // Invariant: one vote per node and term
  // ---------------------------------------------------------------------------

  ghost predicate VotesAreUnique(s: Cluster) {
    forall v, w :: v in s.cast && w in s.cast && v.voter == w.voter && v.term == w.term ==> v == w
  }

  /** A node remembers the vote it cast in its current term, and never voted
      in a later one. */
  ghost predicate VotesAreRemembered(s: Cluster) {
    forall v <- s.cast ::
      && v.voter in s.nodes
      && v.term <= s.nodes[v.voter].term
      && (v.term == s.nodes[v.voter].term ==> s.nodes[v.voter].votedFor == Some(v.candidate))
  }

  ghost predicate CountedVotesWereCast(s: Cluster) {
    && (forall m :: m in s.sent && m.Grant? ==> Vote(m.voter, m.term, m.candidate) in s.cast)
    && (forall c, t, v :: c in s.nodes && v in VotesIn(s.nodes[c], t) ==> Vote(v, t, c) in s.cast)
  }

  ghost predicate WinsAreBacked(s: Cluster) {
    forall w <- s.wins ::
      && IsMajority(|w.voters|, w.total)
      && (forall v <- w.voters :: Vote(v, w.term, w.node) in s.cast)
  }

  /** Wins are for terms their node has reached, and an open ballot is for a
      term newer than every win of its node. */
  ghost predicate BallotsAreFresh(s: Cluster) {
    && (forall w <- s.wins :: w.node in s.nodes && w.term <= s.nodes[w.node].term)
    && (forall n <- s.ballots :: n in s.nodes && s.ballots[n].term <= s.nodes[n].term)
    && (forall w <- s.wins :: w.node in s.ballots ==> w.term < s.ballots[w.node].term)
  }

  ghost predicate Inv(s: Cluster) {
    VotesAreUnique(s) && VotesAreRemembered(s) && CountedVotesWereCast(s) && WinsAreBacked(s) && BallotsAreFresh(s)
  }

  lemma StartKeepsInv(s: Cluster, n: NodeId, total: nat)
    requires Inv(s) && Enabled(s, Start(n, total))
    ensures Inv(OnStart(s, n, total))
  {
    var s' := OnStart(s, n, total);
    var t := s.nodes[n].term + 1;
    forall c, k, v | c in s'.nodes && v in VotesIn(s'.nodes[c], k)
      ensures Vote(v, k, c) in s'.cast
    {
      assert v in VotesIn(s.nodes[c], k) || Vote(v, k, c) == Vote(n, t, n);
    }
  }

  lemma RequestKeepsInv(s: Cluster, term: nat, candidate: NodeId, to: NodeId)
    requires Inv(s) && to in s.nodes
    ensures Inv(OnRequest(s, term, candidate, to))
  {
    var s' := OnRequest(s, term, candidate, to);
    forall c, k, v | c in s'.nodes && v in VotesIn(s'.nodes[c], k)
      ensures Vote(v, k, c) in s'.cast
    {
      assert v in VotesIn(s.nodes[c], k);
    }
  }

  lemma GrantKeepsInv(s: Cluster, m: Message)
    requires Inv(s) && Enabled(s, DeliverGrant(m))
    ensures Inv(Apply(s, DeliverGrant(m)))
  {
    var s' := Apply(s, DeliverGrant(m));
    forall c, k, v | c in s'.nodes && v in VotesIn(s'.nodes[c], k)
      ensures Vote(v, k, c) in s'.cast
    {
      assert v in VotesIn(s.nodes[c], k) || Vote(v, k, c) == Vote(m.voter, m.term, m.candidate);
    }
  }

  lemma RoleChangeKeepsInv(s: Cluster, n: NodeId, v: NodeState)
    requires Inv(s) && n in s.nodes
    requires v.votes == s.nodes[n].votes
    requires v.term > s.nodes[n].term || (v.term == s.nodes[n].term && v.votedFor == s.nodes[n].votedFor)
    ensures Inv(SetNode(s, n, v))
  {
    var s' := SetNode(s, n, v);
    forall c, k, x | c in s'.nodes && x in VotesIn(s'.nodes[c], k)
      ensures Vote(x, k, c) in s'.cast
    {
      assert x in VotesIn(s.nodes[c], k);
    }
  }

  lemma TallyKeepsInv(s: Cluster, n: NodeId)
    requires Inv(s) && Enabled(s, Tally(n))
    ensures Inv(OnTally(s, n))
  {
    var b := s.ballots[n];
    var voters := VotesIn(s.nodes[n], b.term);
    var role := if IsMajority(|voters|, b.total) then Main else Worker;
    var s0 := s.(ballots := s.ballots - {n});
    RoleChangeKeepsInv(s0, n, s.nodes[n].(role := role));
  }

  lemma ApplyKeepsInv(s: Cluster, step: Step)
    requires Inv(s) && Enabled(s, step)
    ensures Inv(Apply(s, step))
    ensures Apply(s, step).nodes.Keys == s.nodes.Keys
  {
    match step
    case Start(n, total) => StartKeepsInv(s, n, total);
    case DeliverRequest(m, to) => RequestKeepsInv(s, m.term, m.candidate, to);
    case DeliverGrant(m) => GrantKeepsInv(s, m);
    case DeliverResult(m, to) => RoleChangeKeepsInv(s, to, ProcessResult(to, s.nodes[to], m.term, m.elected));
    case Tally(n) => TallyKeepsInv(s, n);
    case ClaimAlone(n) => RoleChangeKeepsInv(s, n, s.nodes[n].(role := Main));
  }

  lemma {:induction false} RunKeepsInv(s: Cluster, steps: seq<Step>)
    requires Init(s) && ValidRun(s, steps)
    ensures Inv(Exec(s, steps))
    ensures Exec(s, steps).nodes.Keys == s.nodes.Keys
    decreases |steps|
  {
    if steps != [] {
      RunKeepsInv(s, steps[..|steps| - 1]);
      ApplyKeepsInv(Exec(s, steps[..|steps| - 1]), steps[|steps| - 1]);
    }
  }

  // ---------------------------------------------------------------------------
  // Main results
  // ---------------------------------------------------------------------------

  /** The count a candidate divides by is large enough that two majorities of
      it cannot fit side by side in a cluster of `size` nodes. */
  predicate Covers(total: nat, size: nat) {
    2 * (total / 2 + 1) > size
  }

  ghost predicate OneWinnerPerTerm(s: Cluster) {
    forall v, w :: v in s.wins && w in s.wins && v.term == w.term ==> v.node == w.node
  }

  /**
   Election safety: in every run of complete handler calls over a network that
   drops, repeats and reorders, no term has two winners, provided that every
   winner's node count covers the real cluster.
   */
  lemma ElectionSafety(s: Cluster, steps: seq<Step>)
    requires Init(s) && ValidRun(s, steps)
    requires forall w <- Exec(s, steps).wins :: Covers(w.total, |s.nodes|)
    ensures OneWinnerPerTerm(Exec(s, steps))
  {
    RunKeepsInv(s, steps);
    var e := Exec(s, steps);
    forall v, w | v in e.wins && w in e.wins && v.term == w.term
      ensures v.node == w.node
    {
      var x := QuorumsMeet(e.nodes.Keys, v.voters, w.voters);
      assert Vote(x, v.term, v.node) in e.cast && Vote(x, w.term, w.node) in e.cast;
    }
  }

  predicate CountsAre(steps: seq<Step>, total: nat) {
    forall k :: 0 <= k < |steps| && steps[k].Start? ==> steps[k].total == total
  }

  lemma {:induction false} WinsUseTheCount(s: Cluster, steps: seq<Step>, total: nat)
    requires Init(s) && ValidRun(s, steps) && CountsAre(steps, total)
    ensures forall n <- Exec(s, steps).ballots :: Exec(s, steps).ballots[n].total == total
    ensures forall w <- Exec(s, steps).wins :: w.total == total
    decreases |steps|
  {
    if steps != [] {
      var before := steps[..|steps| - 1];
      assert forall k :: 0 <= k < |before| ==> before[k] == steps[k];
      WinsUseTheCount(s, before, total);
      StepUsesTheCount(Exec(s, before), steps[|steps| - 1], total);
    }
  }

  lemma StepUsesTheCount(e: Cluster, step: Step, total: nat)
    requires Enabled(e, step) && (step.Start? ==> step.total == total)
    requires (forall n <- e.ballots :: e.ballots[n].total == total) && (forall w <- e.wins :: w.total == total)
    ensures var f := Apply(e, step);
      (forall n <- f.ballots :: f.ballots[n].total == total) && (forall w <- f.wins :: w.total == total)
  {
  }

  lemma Extend(s: Cluster, steps: seq<Step>, step: Step)
    requires ValidRun(s, steps) && Enabled(Exec(s, steps), step)
    ensures ValidRun(s, steps + [step])
    ensures Exec(s, steps + [step]) == Apply(Exec(s, steps), step)
  {
    assert (steps + [step])[..|steps|] == steps;
  }

  /** Elections only, all with the same count. */
  predicate Elections(steps: seq<Step>, total: nat) {
    CountsAre(steps, total) && NoClaims(steps)
  }

  /** Nobody takes the single-node path. */
  predicate NoClaims(steps: seq<Step>) {
    forall k :: 0 <= k < |steps| ==> !steps[k].ClaimAlone?
  }

  /** From `e` to `f`, `c` collected the votes of `others` in `term`, and only
      they and `c` changed. */
  ghost predicate Gathered(e: Cluster, f: Cluster, c: NodeId, term: nat, others: set<NodeId>) {
    && f.nodes.Keys == e.nodes.Keys && f.ballots == e.ballots && f.wins == e.wins && e.sent <= f.sent
    && c in e.nodes && c !in others && others <= e.nodes.Keys
    && f.nodes[c].term == term && VotesIn(f.nodes[c], term) == VotesIn(e.nodes[c], term) + others
    && (forall n <- e.nodes :: f.nodes[n].role == e.nodes[n].role)
    && (forall n :: n in e.nodes && n != c && n !in others ==> f.nodes[n] == e.nodes[n])
    && (forall n <- others :: f.nodes[n].term == term && f.nodes[n].votes == e.nodes[n].votes)
  }

  lemma GatheredMore(e: Cluster, f: Cluster, g: Cluster, c: NodeId, term: nat, v: NodeId, rest: set<NodeId>)
    requires Gathered(e, f, c, term, {v}) && Gathered(f, g, c, term, rest) && v !in rest
    ensures Gathered(e, g, c, term, {v} + rest)
  {
  }

  lemma GatheredOne(e: Cluster, c: NodeId, term: nat, v: NodeId)
    requires Request(term, c) in e.sent && c in e.nodes && e.nodes[c].term == term
    requires v in e.nodes && e.nodes[v].term < term
    ensures var f := OnRequest(e, term, c, v);
      && Enabled(f, DeliverGrant(Grant(term, c, v)))
      && Gathered(e, Apply(f, DeliverGrant(Grant(term, c, v))), c, term, {v})
  {
  }

  /** One node still in an older term grants the request, and the grant arrives. */
  lemma GatherOne(s: Cluster, steps: seq<Step>, c: NodeId, term: nat, v: NodeId, total: nat)
    returns (more: seq<Step>)
    requires ValidRun(s, steps) && Elections(steps, total) && c != v
    requires var e := Exec(s, steps);
      Request(term, c) in e.sent && c in e.nodes && e.nodes[c].term == term && v in e.nodes && e.nodes[v].term < term
    ensures ValidRun(s, more) && Elections(more, total) && Gathered(Exec(s, steps), Exec(s, more), c, term, {v})
  {
    var ask, answer := DeliverRequest(Request(term, c), v), DeliverGrant(Grant(term, c, v));
    GatheredOne(Exec(s, steps), c, term, v);
    Extend(s, steps, ask);
    Extend(s, steps + [ask], answer);
    more := steps + [ask] + [answer];
  }

  ghost predicate CanGather(e: Cluster, c: NodeId, term: nat, others: set<NodeId>) {
    && Request(term, c) in e.sent && c in e.nodes && c !in others && e.nodes[c].term == term
    && (forall v <- others :: v in e.nodes && e.nodes[v].term < term)
  }

  lemma CanGatherRest(e: Cluster, f: Cluster, c: NodeId, term: nat, others: set<NodeId>, v: NodeId)
    requires CanGather(e, c, term, others) && v in others && Gathered(e, f, c, term, {v})
    ensures CanGather(f, c, term, others - {v})
  {
  }

  /** A candidate whose request is on the wire collects the votes of any set
      of nodes that are still in an older term. */
  lemma {:induction false} GatherVotes(s: Cluster, steps: seq<Step>, c: NodeId, term: nat, others: set<NodeId>,
                                       total: nat)
    returns (more: seq<Step>)
    requires ValidRun(s, steps) && Elections(steps, total) && CanGather(Exec(s, steps), c, term, others)
    ensures ValidRun(s, more) && Elections(more, total) && Gathered(Exec(s, steps), Exec(s, more), c, term, others)
    decreases others
  {
    if others == {} {
      more := steps;
    } else {
      var v :| v in others;
      var one := GatherOne(s, steps, c, term, v, total);
      CanGatherRest(Exec(s, steps), Exec(s, one), c, term, others, v);
      more := GatherVotes(s, one, c, term, others - {v}, total);
      GatheredMore(Exec(s, steps), Exec(s, one), Exec(s, more), c, term, v, others - {v});
      assert {v} + (others - {v}) == others;
    }
  }

  // ---------------------------------------------------------------------------
  // Building runs
  // ---------------------------------------------------------------------------

  /** The next ballot can be opened by `c`, and all of `quorum` can vote in it. */
  ghost predicate CanOpen(e: Cluster, c: NodeId, t: nat, quorum: set<NodeId>) {
    && c in quorum && quorum <= e.nodes.Keys && c !in e.ballots
    && e.nodes[c].role != Main && e.nodes[c].term == t && VotesIn(e.nodes[c], t + 1) == {}
    && forall n <- quorum :: e.nodes[n].term <= t
  }

  /** From `e` to `f`, `c` opened a ballot for `term` and has the votes of exactly
      `quorum`. */
  ghost predicate Opened(e: Cluster, f: Cluster, c: NodeId, term: nat, quorum: set<NodeId>, total: nat) {
    && f.nodes.Keys == e.nodes.Keys && c in quorum && quorum <= e.nodes.Keys
    && f.ballots == e.ballots[c := Ballot(term, total)] && f.wins == e.wins
    && e.sent <= f.sent && Request(term, c) in f.sent
    && f.nodes[c].term == term && f.nodes[c].role == Candidate && VotesIn(f.nodes[c], term) == quorum
    && (forall n <- e.nodes :: n != c ==> f.nodes[n].role == e.nodes[n].role && f.nodes[n].votes == e.nodes[n].votes)
    && (forall n <- quorum :: f.nodes[n].term == term)
    && (forall n <- e.nodes :: n !in quorum ==> f.nodes[n] == e.nodes[n])
  }

  lemma OpenedIs(e: Cluster, m: Cluster, f: Cluster, c: NodeId, t: nat, quorum: set<NodeId>, total: nat)
    requires CanOpen(e, c, t, quorum) && m == OnStart(e, c, total) && Gathered(m, f, c, t + 1, quorum - {c})
    ensures Opened(e, f, c, t + 1, quorum, total)
  {
    assert {c} + (quorum - {c}) == quorum;
  }

  lemma OpenBallot(s: Cluster, steps: seq<Step>, c: NodeId, t: nat, quorum: set<NodeId>, total: nat)
    returns (more: seq<Step>)
    requires ValidRun(s, steps) && Elections(steps, total) && total >= 2 && CanOpen(Exec(s, steps), c, t, quorum)
    ensures ValidRun(s, more) && Elections(more, total)
    ensures Opened(Exec(s, steps), Exec(s, more), c, t + 1, quorum, total)
  {
    var e := Exec(s, steps);
    Extend(s, steps, Start(c, total));
    var started := steps + [Start(c, total)];
    more := GatherVotes(s, started, c, t + 1, quorum - {c}, total);
    OpenedIs(e, Exec(s, started), Exec(s, more), c, t, quorum, total);
  }

  /** `n` tallies a majority: it is Main, its win is recorded and announced, and
      nothing else changes. */
  ghost predicate Tallied(e: Cluster, f: Cluster, n: NodeId, total: nat) {
    && n in e.nodes && n in e.ballots
    && f.nodes == e.nodes[n := e.nodes[n].(role := Main)] && f.ballots == e.ballots - {n}
    && f.sent == e.sent + {Result(e.ballots[n].term, n)}
    && f.wins == e.wins + {Win(e.ballots[n].term, n, VotesIn(e.nodes[n], e.ballots[n].term), total)}
  }

  lemma WinBallot(s: Cluster, steps: seq<Step>, n: NodeId, total: nat) returns (more: seq<Step>)
    requires ValidRun(s, steps) && Elections(steps, total)
    requires var e := Exec(s, steps);
      n in e.nodes && n in e.ballots && e.ballots[n].total == total
      && |VotesIn(e.nodes[n], e.ballots[n].term)| == total / 2 + 1 && total >= 2
    ensures ValidRun(s, more) && Elections(more, total) && Tallied(Exec(s, steps), Exec(s, more), n, total)
  {
    Extend(s, steps, Tally(n));
    more := steps + [Tally(n)];
  }

  /** A quorum of the size a candidate needs, with two given members. */
  lemma QuorumWith(whole: set<NodeId>, a: NodeId, b: NodeId, q: nat) returns (quorum: set<NodeId>)
    requires a in whole && b in whole && a != b && 2 <= q <= |whole|
    ensures quorum <= whole && a in quorum && b in quorum && |quorum| == q
  {
    assert |whole - {a, b}| == |whole| - 2 by {
      assert whole == (whole - {a, b}) + {a, b};
    }
    var rest := SubsetOfSize(whole - {a, b}, q - 2);
    quorum := rest + {a, b};
  }

  // ---------------------------------------------------------------------------
  // How large the count has to be
  // ---------------------------------------------------------------------------

  ghost predicate AllMain(s: Cluster) {
    forall n <- s.nodes :: s.nodes[n].role == Main
  }

  /** While nobody stands for election nobody wins one. */
  lemma {:induction false} MainsNeverElect(s: Cluster, steps: seq<Step>)
    requires Init(s) && AllMain(s) && ValidRun(s, steps)
    ensures var e := Exec(s, steps); AllMain(e) && e.ballots == map[] && e.sent == {} && e.wins == {}
    decreases |steps|
  {
    if steps != [] {
      MainsNeverElect(s, steps[..|steps| - 1]);
    }
  }

  /** The result of `x`'s win reaches all of `others`: they are Workers then. */
  ghost predicate Announced(e: Cluster, f: Cluster, term: nat, others: set<NodeId>) {
    && f.nodes.Keys == e.nodes.Keys && f.ballots == e.ballots && f.wins == e.wins && f.sent == e.sent
    && others <= e.nodes.Keys
    && (forall n <- e.nodes :: n !in others ==> f.nodes[n] == e.nodes[n])
    && (forall n <- others ::
          f.nodes[n].role == Worker && f.nodes[n].term == term && f.nodes[n].votes == e.nodes[n].votes)
  }

  ghost predicate CanHear(e: Cluster, x: NodeId, term: nat, others: set<NodeId>) {
    Result(term, x) in e.sent && x !in others && others <= e.nodes.Keys && forall n <- others :: e.nodes[n].term <= term
  }

  lemma HeardOne(e: Cluster, x: NodeId, term: nat, n: NodeId)
    requires CanHear(e, x, term, {n})
    ensures Enabled(e, DeliverResult(Result(term, x), n))
    ensures Announced(e, Apply(e, DeliverResult(Result(term, x), n)), term, {n})
  {
    assert n in {n};
  }

  lemma AnnouncedMore(e: Cluster, f: Cluster, g: Cluster, term: nat, n: NodeId, rest: set<NodeId>)
    requires Announced(e, f, term, {n}) && Announced(f, g, term, rest) && n !in rest
    ensures Announced(e, g, term, {n} + rest)
  {
  }

  lemma {:induction false} Announce(s: Cluster, steps: seq<Step>, x: NodeId, term: nat, others: set<NodeId>, total: nat)
    returns (more: seq<Step>)
    requires ValidRun(s, steps) && Elections(steps, total) && CanHear(Exec(s, steps), x, term, others)
    ensures ValidRun(s, more) && Elections(more, total) && Announced(Exec(s, steps), Exec(s, more), term, others)
    decreases others
  {
    if others == {} {
      more := steps;
    } else {
      var n :| n in others;
      var step := DeliverResult(Result(term, x), n);
      HeardOne(Exec(s, steps), x, term, n);
      Extend(s, steps, step);
      more := Announce(s, steps + [step], x, term, others - {n}, total);
      AnnouncedMore(Exec(s, steps), Exec(s, steps + [step]), Exec(s, more), term, n, others - {n});
      assert {n} + (others - {n}) == others;
    }
  }

  /** Two disjoint sets of voters, each of the size a candidate needs. */
  lemma DisjointQuorums(whole: set<NodeId>, q: nat) returns (left: set<NodeId>, right: set<NodeId>)
    requires 2 * q <= |whole|
    ensures left <= whole && right <= whole && left !! right && |left| == |right| == q
  {
    left := SubsetOfSize(whole, q);
    assert |whole - left| == |whole| - |left|;
    right := SubsetOfSize(whole - left, q);
  }

  lemma OtherMember(whole: set<NodeId>, x: NodeId) returns (n: NodeId)
    requires |whole| >= 2
    ensures n in whole && n != x
  {
    if whole <= {x} {
      SubsetSize(whole, {x});
      assert false;
    }
    n :| n in whole && n != x;
  }

  /** Everybody is in term 1 at most, and everybody but `x` is an idle Worker of term 1. */
  ghost predicate AfterFirst(e: Cluster, x: NodeId) {
    && e.ballots == map[] && x in e.nodes && e.nodes[x].term <= 1
    && forall n <- e.nodes :: n != x ==> e.nodes[n].role == Worker && e.nodes[n].term == 1 && e.nodes[n].votes == map[]
  }

  lemma FirstWin(s: Cluster, e: Cluster, f: Cluster, x: NodeId, quorum: set<NodeId>, total: nat)
    requires Init(s) && Opened(s, e, x, 1, quorum, total) && Tallied(e, f, x, total)
    ensures FirstWon(s, f, x)
  {
  }

  ghost predicate FirstWon(s: Cluster, f: Cluster, x: NodeId) {
    && f.nodes.Keys == s.nodes.Keys && f.ballots == map[]
    && x in f.nodes && f.nodes[x].term == 1 && Result(1, x) in f.sent
    && forall n <- f.nodes :: f.nodes[n].term <= 1 && (n != x ==> f.nodes[n].votes == map[])
  }

  /** The first ballot of all. */
  lemma OpenFirst(s: Cluster, x: NodeId, quorum: set<NodeId>, total: nat) returns (steps: seq<Step>)
    requires Init(s) && total >= 2 && x in quorum && quorum <= s.nodes.Keys && s.nodes[x].role != Main
    ensures ValidRun(s, steps) && Elections(steps, total) && Opened(s, Exec(s, steps), x, 1, quorum, total)
  {
    assert CanOpen(s, x, 0, quorum);
    assert Exec(s, []) == s;
    steps := OpenBallot(s, [], x, 0, quorum, total);
  }

  lemma FirstVictory(s: Cluster, x: NodeId, quorum: set<NodeId>, total: nat) returns (steps: seq<Step>)
    requires Init(s) && total >= 2 && x in quorum && quorum <= s.nodes.Keys && |quorum| == total / 2 + 1
    requires s.nodes[x].role != Main
    ensures ValidRun(s, steps) && Elections(steps, total) && FirstWon(s, Exec(s, steps), x)
  {
    var held := OpenFirst(s, x, quorum, total);
    steps := WinBallot(s, held, x, total);
    FirstWin(s, Exec(s, held), Exec(s, steps), x, quorum, total);
  }

  lemma AfterFirstIs(s: Cluster, e: Cluster, f: Cluster, x: NodeId)
    requires FirstWon(s, e, x) && Announced(e, f, 1, s.nodes.Keys - {x})
    ensures f.nodes.Keys == s.nodes.Keys && AfterFirst(f, x)
  {
  }

  /** The first election: `x` wins term 1 and everybody hears of it. */
  lemma FirstElection(s: Cluster, x: NodeId, quorum: set<NodeId>, total: nat) returns (steps: seq<Step>)
    requires Init(s) && total >= 2 && x in quorum && quorum <= s.nodes.Keys && |quorum| == total / 2 + 1
    requires s.nodes[x].role != Main
    ensures ValidRun(s, steps) && Elections(steps, total)
    ensures Exec(s, steps).nodes.Keys == s.nodes.Keys && AfterFirst(Exec(s, steps), x)
  {
    var won := FirstVictory(s, x, quorum, total);
    steps := Announce(s, won, x, 1, s.nodes.Keys - {x}, total);
    AfterFirstIs(s, Exec(s, won), Exec(s, steps), x);
  }

  lemma BothCanOpen(e: Cluster, f: Cluster, x: NodeId, a: NodeId, b: NodeId,
                    left: set<NodeId>, right: set<NodeId>, total: nat)
    requires AfterFirst(e, x) && a in left && b in right && a != x && b != x
    requires left !! right && left + right <= e.nodes.Keys
    ensures CanOpen(e, a, 1, left) && (Opened(e, f, a, 2, left, total) ==> CanOpen(f, b, 1, right))
  {
  }

  lemma BothOpened(e: Cluster, f: Cluster, g: Cluster, a: NodeId, b: NodeId,
                   left: set<NodeId>, right: set<NodeId>, total: nat)
    requires e.ballots == map[] && Opened(e, f, a, 2, left, total) && Opened(f, g, b, 2, right, total) && left !! right
    ensures a in g.nodes && b in g.nodes && g.ballots == map[a := Ballot(2, total), b := Ballot(2, total)]
    ensures VotesIn(g.nodes[a], 2) == left && VotesIn(g.nodes[b], 2) == right
  {
  }

  /** From there two nodes can win term 2 with disjoint quorums. */
  lemma SecondSplits(s: Cluster, steps: seq<Step>, x: NodeId, a: NodeId, b: NodeId,
                     left: set<NodeId>, right: set<NodeId>, total: nat) returns (more: seq<Step>)
    requires ValidRun(s, steps) && Elections(steps, total) && AfterFirst(Exec(s, steps), x) && total >= 2
    requires a in left && b in right && left !! right && a != x && b != x
    requires left + right <= Exec(s, steps).nodes.Keys && |left| == |right| == total / 2 + 1
    ensures ValidRun(s, more) && CountsAre(more, total) && !OneWinnerPerTerm(Exec(s, more))
  {
    var e := Exec(s, steps);
    BothCanOpen(e, e, x, a, b, left, right, total);
    var viaA := OpenBallot(s, steps, a, 1, left, total);
    BothCanOpen(e, Exec(s, viaA), x, a, b, left, right, total);
    var viaB := OpenBallot(s, viaA, b, 1, right, total);
    BothOpened(e, Exec(s, viaA), Exec(s, viaB), a, b, left, right, total);
    var wonA := WinBallot(s, viaB, a, total);
    more := WinBallot(s, wonA, b, total);
    assert Win(2, a, left, total) in Exec(s, more).wins && Win(2, b, right, total) in Exec(s, more).wins;
  }

  /** When the count does not cover the cluster and somebody can stand for
      election, some run elects two nodes in one term. */
  lemma SplitElection(s: Cluster, total: nat) returns (steps: seq<Step>)
    requires Init(s) && total >= 2 && !Covers(total, |s.nodes|) && !AllMain(s)
    ensures ValidRun(s, steps) && CountsAre(steps, total) && !OneWinnerPerTerm(Exec(s, steps))
  {
    var x :| x in s.nodes && s.nodes[x].role != Main;
    assert |s.nodes.Keys| == |s.nodes|;
    var left, right := DisjointQuorums(s.nodes.Keys, total / 2 + 1);
    var a := OtherMember(left, x);
    var b := OtherMember(right, x);
    var y := OtherMember(s.nodes.Keys, x);
    var quorum := QuorumWith(s.nodes.Keys, x, y, total / 2 + 1);
    var first := FirstElection(s, x, quorum, total);
    steps := SecondSplits(s, first, x, a, b, left, right, total);
  }

  /**
   Exactly how large the count has to be: if all candidates divide by `total`,
   every run has one winner per term if and only if `total` covers the cluster
   or all nodes are configured as Main, so that nobody ever stands.
   */
  lemma SafeCounts(s: Cluster, total: nat)
    requires Init(s) && total >= 2
    ensures (forall steps :: ValidRun(s, steps) && CountsAre(steps, total) ==> OneWinnerPerTerm(Exec(s, steps)))
       <==> Covers(total, |s.nodes|) || AllMain(s)
  {
    if Covers(total, |s.nodes|) || AllMain(s) {
      forall steps | ValidRun(s, steps) && CountsAre(steps, total)
        ensures OneWinnerPerTerm(Exec(s, steps))
      {
        if AllMain(s) {
          MainsNeverElect(s, steps);
        } else {
          WinsUseTheCount(s, steps, total);
          ElectionSafety(s, steps);
        }
      }
    } else {
      var steps := SplitElection(s, total);
    }
  }
}
