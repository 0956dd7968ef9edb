/**
 One node's election state at the granularity of its locks
 (waf-cluster/src/election/mod.rs).

 `process_vote` takes the term lock to read the term, again to write it, and the
 vote lock once to clear the vote and once more to decide.
 `increment_term_and_vote_for_self` raises the term and sets the vote under
 separate locks.  `advance_term` holds the term lock while it clears the vote.
 Each acquisition is one step; any number of vote handlers, results and starts
 of the node's own election loop interleave between them.
 */
module ElectionRace {
  import opened Basics
  import Election

  type NodeId = Election.NodeId

  datatype Shared = Shared(term: nat, votedFor: Option<NodeId>)

  datatype Point = Begin | ReadTerm(seen: nat) | WroteTerm | Decide | Finished(granted: bool)

  datatype Handler = Handler(term: nat, candidate: NodeId, at: Point)

  /** The next lock acquisition of one vote handler. */
  function Advance(sh: Shared, h: Handler): (Shared, Handler)
    requires !h.at.Finished?
  {
    match h.at
    case Begin => (sh, h.(at := ReadTerm(sh.term)))
    case ReadTerm(seen) =>
      if h.term < seen then (sh, h.(at := Finished(false)))
      else if h.term > seen then (sh.(term := h.term), h.(at := WroteTerm))
      else AtDecision(sh, h)
    case WroteTerm => (sh.(votedFor := None), h.(at := Decide))
    case Decide => AtDecision(sh, h)
  }

  /** Test and set under the vote lock. */
  function AtDecision(sh: Shared, h: Handler): (Shared, Handler) {
    if sh.votedFor.None? || sh.votedFor.value == h.candidate
    then (sh.(votedFor := Some(h.candidate)), h.(at := Finished(true)))
    else (sh, h.(at := Finished(false)))
  }

  // ---------------------------------------------------------------------------
  // Everything that can run at one node at once
  // ---------------------------------------------------------------------------

  /** The election loop of the node, if it runs: between two starts, or between
      the two locks of one. */
  datatype Start = Absent | Idle | Bumped(term: nat)

  /** `own` are the terms in which the node voted for itself, and `results` those
      of election results that may arrive, each any number of times. */
  datatype Node = Node(me: NodeId, sh: Shared, start: Start, own: set<nat>, votes: map<nat, Handler>, results: set<nat>)

  datatype Pick = Vote(id: nat) | Hear(term: nat) | Own

  predicate Enabled(s: Node, p: Pick) {
    match p
    case Vote(i) => i in s.votes && !s.votes[i].at.Finished?
    case Hear(t) => t in s.results
    case Own => !s.start.Absent?
  }

  function Next(s: Node, p: Pick): Node
    requires Enabled(s, p)
  {
    match p
    case Vote(i) => var (sh, h) := Advance(s.sh, s.votes[i]); s.(sh := sh, votes := s.votes[i := h])
    case Hear(t) => if t > s.sh.term then s.(sh := Shared(t, None)) else s
    case Own =>
      if s.start.Idle? then s.(sh := s.sh.(term := s.sh.term + 1), start := Bumped(s.sh.term + 1))
      else s.(sh := s.sh.(votedFor := Some(s.me)), start := Idle, own := s.own + {s.start.term})
  }

  /** Nothing has begun; requests come from other nodes. */
  ghost predicate Fresh(s: Node) {
    && !s.start.Bumped? && s.own == {}
    && forall i <- s.votes :: s.votes[i].at == Begin && s.votes[i].candidate != s.me
  }

  ghost predicate Valid(s: Node, order: seq<Pick>)
    decreases |order|, 0
  {
    order == [] ||
    (Valid(s, order[..|order| - 1]) && Enabled(Run(s, order[..|order| - 1]), order[|order| - 1]))
  }

  ghost function Run(s: Node, order: seq<Pick>): Node
    requires Valid(s, order)
    decreases |order|, 1
  {
    if order == [] then s else Next(Run(s, order[..|order| - 1]), order[|order| - 1])
  }

  // ---------------------------------------------------------------------------
  // One vote per term
  // ---------------------------------------------------------------------------

  /** The node gave its vote in `term` to `c`: it held it at the start, granted it,
      or voted for itself. */
  ghost predicate VotedFor(s0: Node, s: Node, term: nat, c: NodeId) {
    || (term == s0.sh.term && s0.sh.votedFor == Some(c))
    || (term in s.own && c == s.me)
    || exists i :: i in s.votes && s.votes[i] == Handler(term, c, Finished(true))
  }

  ghost predicate DoubleVote(s0: Node, s: Node) {
    exists term, c, d :: VotedFor(s0, s, term, c) && VotedFor(s0, s, term, d) && c != d
  }

  ghost predicate CanDoubleVote(s: Node) {
    exists order :: Valid(s, order) && DoubleVote(s, Run(s, order))
  }

  /** Some request or result carries the newer term `u`. */
  ghost predicate Newer(s: Node, u: nat) {
    u > s.sh.term && (u in s.results || exists i :: i in s.votes && s.votes[i].term == u)
  }

  /** Holds the node's vote in its current term, or asks for it. */
  ghost predicate Wants(s: Node, c: NodeId) {
    s.sh.votedFor == Some(c) || exists i :: i in s.votes && s.votes[i].term == s.sh.term && s.votes[i].candidate == c
  }

  /** Two requests of one newer term. */
  ghost predicate Rivals(s: Node, i: nat, j: nat) {
    && i in s.votes && j in s.votes && s.votes[i].candidate != s.votes[j].candidate
    && s.votes[i].term == s.votes[j].term > s.sh.term
  }

  /** A newer request, while the node may start elections itself: one start after
      the other reaches every newer term. */
  ghost predicate RivalsOwn(s: Node, i: nat) {
    !s.start.Absent? && i in s.votes && s.votes[i].term > s.sh.term
  }

  ghost predicate Conflict(s: Node) {
    || (exists i, j :: Rivals(s, i, j))
    || ((exists u :: Newer(s, u)) && exists c, d :: Wants(s, c) && Wants(s, d) && c != d)
    || (exists i :: RivalsOwn(s, i))
  }

  // ---------------------------------------------------------------------------
  // Without a conflict: an invariant of all interleavings
  // ---------------------------------------------------------------------------

  ghost predicate SameTasks(s0: Node, s: Node) {
    && s.me == s0.me && s.results == s0.results && s.votes.Keys == s0.votes.Keys
    && (s.start.Absent? <==> s0.start.Absent?)
    && forall i <- s.votes :: s.votes[i].term == s0.votes[i].term && s.votes[i].candidate == s0.votes[i].candidate
  }

  /** Terms do not fall below the first, and own votes are in later ones. */
  ghost predicate TermsKnown(s0: Node, s: Node) {
    && s.sh.term >= s0.sh.term
    && (s.start.Bumped? ==> s.start.term > s0.sh.term)
    && (s.start.Absent? ==> s.own == {})
    && forall u <- s.own :: u > s0.sh.term
  }

  ghost predicate HandlersKnown(s0: Node, s: Node) {
    forall i <- s.votes :: var h := s.votes[i];
      && (h.at.ReadTerm? ==> h.at.seen >= s0.sh.term)
      && (h.at == WroteTerm || h.at == Decide ==> h.term > s0.sh.term)
      && (h.at == Finished(true) ==> h.term >= s0.sh.term)
  }

  /** While nothing newer can clear the vote, it stays until the node votes for itself. */
  ghost predicate VoteKept(s0: Node, s: Node) {
    && (s.own != {} ==> s.sh.votedFor == Some(s.me))
    && (s.own == {} ==> forall c :: VotedFor(s0, s, s0.sh.term, c) ==> s.sh.votedFor == Some(c))
    && forall c, d :: VotedFor(s0, s, s0.sh.term, c) && VotedFor(s0, s, s0.sh.term, d) ==> c == d
  }

  ghost predicate Inv(s0: Node, s: Node) {
    Known(s0, s) && ((forall u :: !Newer(s0, u)) ==> VoteKept(s0, s))
  }

  ghost predicate Known(s0: Node, s: Node) {
    SameTasks(s0, s) && TermsKnown(s0, s) && HandlersKnown(s0, s)
  }

  lemma VoteKeepsKnown(s0: Node, s: Node, i: nat)
    requires Known(s0, s) && Enabled(s, Vote(i))
    ensures Known(s0, Next(s, Vote(i)))
  {
    var h, s' := s.votes[i], Next(s, Vote(i));
    assert s'.start == s.start;
    if h.at.ReadTerm? && h.term > h.at.seen {
      assert s'.sh.term == h.term;
    } else {
      assert s'.sh.term == s.sh.term;
    }
    assert forall j <- s.votes :: j != i ==> s'.votes[j] == s.votes[j];
  }

  lemma StepKeepsKnown(s0: Node, s: Node, p: Pick)
    requires Known(s0, s) && Enabled(s, p)
    ensures Known(s0, Next(s, p))
  {
    match p {
      case Vote(i) => VoteKeepsKnown(s0, s, i);
      case Hear(t) =>
      case Own =>
    }
  }

  /** Which votes a step adds. */
  lemma StepVotes(s0: Node, s: Node, p: Pick, term: nat, c: NodeId)
    requires Enabled(s, p) && VotedFor(s0, Next(s, p), term, c) && !VotedFor(s0, s, term, c)
    ensures (p.Own? && s.start == Bumped(term) && c == s.me)
         || (p.Vote? && s.votes[p.id].term == term && s.votes[p.id].candidate == c
             && Next(s, p).votes[p.id].at == Finished(true)
             && (s.sh.votedFor.None? || s.sh.votedFor == Some(c)) && Next(s, p).sh.votedFor == Some(c))
  {
  }

  lemma StepKeepsVote(s0: Node, s: Node, p: Pick)
    requires Fresh(s0) && Inv(s0, s) && Enabled(s, p) && forall u :: !Newer(s0, u)
    ensures VoteKept(s0, Next(s, p))
  {
    var s' := Next(s, p);
    var t := s0.sh.term;
    forall c | VotedFor(s0, s', t, c)
      ensures VotedFor(s0, s, t, c)
           || (s'.own == {} && s'.sh.votedFor == Some(c) && (s.sh.votedFor.None? || s.sh.votedFor == Some(c)))
    {
      if !VotedFor(s0, s, t, c) {
        StepVotes(s0, s, p, t, c);
      }
    }
    forall i <- s.votes ensures s.votes[i].term <= t && s.votes[i].at != WroteTerm && s.votes[i].at != Decide {
      assert !Newer(s0, s.votes[i].term);
    }
    if p.Hear? {
      assert !Newer(s0, p.term);
    }
  }

  lemma {:induction false} RunKeepsInv(s0: Node, order: seq<Pick>)
    requires Fresh(s0) && Valid(s0, order)
    ensures Inv(s0, Run(s0, order))
    decreases |order|
  {
    if order == [] {
    } else {
      var before, p := order[..|order| - 1], order[|order| - 1];
      RunKeepsInv(s0, before);
      var s := Run(s0, before);
      StepKeepsKnown(s0, s, p);
      if forall u :: !Newer(s0, u) {
        StepKeepsVote(s0, s, p);
      }
    }
  }

  lemma OwnTermIsFree(s0: Node, s: Node, term: nat, j: nat)
    requires Known(s0, s) && !Conflict(s0) && term in s.own && j in s.votes
    ensures s.votes[j].term != term
  {
    assert !RivalsOwn(s0, j);
  }

  lemma GrantedAlike(s0: Node, s: Node, i: nat, j: nat)
    requires Known(s0, s) && !Conflict(s0) && i in s.votes && j in s.votes
    requires s.votes[i].term == s.votes[j].term > s0.sh.term
    ensures s.votes[i].candidate == s.votes[j].candidate
  {
    assert !Rivals(s0, i, j);
  }

  /** In a later term the node votes for one candidate: all handlers of that term
      have the same, and there are none if it starts elections itself. */
  lemma LaterVotes(s0: Node, s: Node, term: nat, c: NodeId, d: NodeId)
    requires Fresh(s0) && Known(s0, s) && !Conflict(s0) && term != s0.sh.term
    requires VotedFor(s0, s, term, c) && VotedFor(s0, s, term, d)
    ensures c == d
  {
    if term in s.own {
      forall j | j in s.votes ensures s.votes[j].term != term {
        OwnTermIsFree(s0, s, term, j);
      }
    } else {
      var i :| i in s.votes && s.votes[i] == Handler(term, c, Finished(true));
      var j :| j in s.votes && s.votes[j] == Handler(term, d, Finished(true));
      GrantedAlike(s0, s, i, j);
    }
  }

  lemma CurrentVoteIsWanted(s0: Node, s: Node, c: NodeId)
    requires Known(s0, s) && VotedFor(s0, s, s0.sh.term, c)
    ensures Wants(s0, c)
  {
    if i :| i in s.votes && s.votes[i] == Handler(s0.sh.term, c, Finished(true)) {
      assert s0.votes[i].term == s0.sh.term && s0.votes[i].candidate == c;
    }
  }

  lemma NoConflictIsSafe(s0: Node, order: seq<Pick>)
    requires Fresh(s0) && Valid(s0, order) && !Conflict(s0)
    ensures !DoubleVote(s0, Run(s0, order))
  {
    RunKeepsInv(s0, order);
    var s := Run(s0, order);
    forall term, c, d | VotedFor(s0, s, term, c) && VotedFor(s0, s, term, d) ensures c == d {
      if term != s0.sh.term {
        LaterVotes(s0, s, term, c, d);
      } else {
        CurrentVoteIsWanted(s0, s, c);
        CurrentVoteIsWanted(s0, s, d);
      }
    }
  }
}
