/**
 When one node can vote twice in a term (waf-cluster/src/election/mod.rs): a
 schedule for every conflict, and with the safe half the exact condition.
 */
module ElectionVotes {
  import opened Basics
  import opened ElectionRace

  ghost predicate Reaches(s: Node, order: seq<Pick>, t: Node) {
    Valid(s, order) && Run(s, order) == t
  }

  lemma Then(s: Node, order: seq<Pick>, t: Node, p: Pick) returns (more: seq<Pick>)
    requires Reaches(s, order, t) && Enabled(t, p)
    ensures Reaches(s, more, Next(t, p))
  {
    more := order + [p];
    assert more[..|more| - 1] == order;
  }

  /** Handler `i` gets to the point `at`, and only it and `sh` change. */
  function Moved(s: Node, sh: Shared, i: nat, at: Point): Node
    requires i in s.votes
  {
    s.(sh := sh, votes := s.votes[i := s.votes[i].(at := at)])
  }

  lemma Read(s: Node, order: seq<Pick>, t: Node, i: nat) returns (more: seq<Pick>)
    requires Reaches(s, order, t) && i in t.votes && t.votes[i].at == Begin
    ensures Reaches(s, more, Moved(t, t.sh, i, ReadTerm(t.sh.term)))
  {
    more := Then(s, order, t, Vote(i));
  }

  /** From having read an older term: write it and clear the vote. */
  lemma WriteAndClear(s: Node, order: seq<Pick>, t: Node, i: nat) returns (more: seq<Pick>)
    requires Reaches(s, order, t) && i in t.votes && t.votes[i].at.ReadTerm? && t.votes[i].term > t.votes[i].at.seen
    ensures Reaches(s, more, Moved(t, Shared(t.votes[i].term, None), i, Decide))
  {
    var u := Moved(t, t.sh.(term := t.votes[i].term), i, WroteTerm);
    more := Then(s, order, t, Vote(i));
    more := Then(s, more, u, Vote(i));
    assert Next(u, Vote(i)) == Moved(t, Shared(t.votes[i].term, None), i, Decide);
  }

  lemma Grant(s: Node, order: seq<Pick>, t: Node, i: nat) returns (more: seq<Pick>)
    requires Reaches(s, order, t) && i in t.votes && t.sh.votedFor.None?
    requires t.votes[i].at == Decide || t.votes[i].at == ReadTerm(t.votes[i].term)
    ensures Reaches(s, more, Moved(t, t.sh.(votedFor := Some(t.votes[i].candidate)), i, Finished(true)))
  {
    more := Then(s, order, t, Vote(i));
  }

  lemma WriteAndGrant(s: Node, order: seq<Pick>, t: Node, i: nat) returns (more: seq<Pick>)
    requires Reaches(s, order, t) && i in t.votes && t.votes[i].at.ReadTerm? && t.votes[i].term > t.votes[i].at.seen
    ensures Reaches(s, more, Moved(t, Shared(t.votes[i].term, Some(t.votes[i].candidate)), i, Finished(true)))
  {
    var u := Moved(t, Shared(t.votes[i].term, None), i, Decide);
    more := WriteAndClear(s, order, t, i);
    more := Grant(s, more, u, i);
    assert Moved(u, u.sh.(votedFor := Some(t.votes[i].candidate)), i, Finished(true))
        == Moved(t, Shared(t.votes[i].term, Some(t.votes[i].candidate)), i, Finished(true));
  }

  /** Both read the old term, then each in turn writes the term, clears the vote
      and decides. */
  lemma RivalsRace(s: Node, i: nat, j: nat) returns (order: seq<Pick>, t: Node)
    requires Fresh(s) && Rivals(s, i, j)
    ensures Reaches(s, order, t) && t.sh == Shared(s.votes[j].term, Some(s.votes[j].candidate))
    ensures SameTasks(s, t) && t.votes[i].at == t.votes[j].at == Finished(true)
  {
    var h, g := s.votes[i], s.votes[j];
    order := Read(s, [], s, i);
    t := Moved(s, s.sh, i, ReadTerm(s.sh.term));
    order := Read(s, order, t, j);
    t := Moved(t, s.sh, j, ReadTerm(s.sh.term));
    order := WriteAndGrant(s, order, t, i);
    t := Moved(t, Shared(h.term, Some(h.candidate)), i, Finished(true));
    order := WriteAndGrant(s, order, t, j);
    t := Moved(t, Shared(g.term, Some(g.candidate)), j, Finished(true));
  }

  lemma NewerStill(s: Node, t: Node, u: nat)
    requires Newer(s, u) && SameTasks(s, t) && t.sh.term == s.sh.term
    ensures Newer(t, u)
  {
    if u !in s.results {
      var k :| k in s.votes && s.votes[k].term == u;
      assert t.votes[k].term == u;
    }
  }

  /** A newer request or result clears the vote; tasks that have read the current
      term do not notice. */
  lemma Clear(s: Node, order: seq<Pick>, t: Node, u: nat) returns (more: seq<Pick>, t': Node)
    requires Reaches(s, order, t) && Newer(t, u)
    requires forall i <- t.votes :: t.votes[i].term > t.sh.term ==> t.votes[i].at == Begin
    ensures Reaches(s, more, t') && t'.sh == Shared(u, None) && SameTasks(t, t')
    ensures t'.start == t.start && forall i <- t.votes :: t.votes[i].term != u ==> t'.votes[i] == t.votes[i]
  {
    if u in t.results {
      more := Then(s, order, t, Hear(u));
      t' := Next(t, Hear(u));
    } else {
      var k :| k in t.votes && t.votes[k].term == u;
      more := Read(s, order, t, k);
      t' := Moved(t, t.sh, k, ReadTerm(t.sh.term));
      more := WriteAndClear(s, more, t', k);
      t' := Moved(t', Shared(u, None), k, Decide);
    }
  }

  /** A request of the current term, read in time, is granted after the vote held
      has been cleared. */
  lemma HeldRace(s: Node, i: nat, u: nat) returns (order: seq<Pick>)
    requires Fresh(s) && Newer(s, u) && i in s.votes && s.votes[i].term == s.sh.term
    requires s.sh.votedFor.Some? && s.sh.votedFor.value != s.votes[i].candidate
    ensures Valid(s, order) && DoubleVote(s, Run(s, order))
  {
    order := Read(s, [], s, i);
    var t := Moved(s, s.sh, i, ReadTerm(s.sh.term));
    NewerStill(s, t, u);
    order, t := Clear(s, order, t, u);
    order := Grant(s, order, t, i);
    var e := Run(s, order);
    assert e.votes[i] == Handler(s.sh.term, s.votes[i].candidate, Finished(true));
    assert VotedFor(s, e, s.sh.term, s.votes[i].candidate) && VotedFor(s, e, s.sh.term, s.sh.votedFor.value);
  }

  /** Two requests of the current term, with the vote cleared between. */
  lemma CurrentRace(s: Node, i: nat, j: nat, u: nat) returns (order: seq<Pick>)
    requires Fresh(s) && Newer(s, u) && s.sh.votedFor.None? && i in s.votes && j in s.votes
    requires s.votes[i].term == s.votes[j].term == s.sh.term && s.votes[i].candidate != s.votes[j].candidate
    ensures Valid(s, order) && DoubleVote(s, Run(s, order))
  {
    order := Read(s, [], s, i);
    var t := Moved(s, s.sh, i, ReadTerm(s.sh.term));
    order := Read(s, order, t, j);
    t := Moved(t, s.sh, j, ReadTerm(s.sh.term));
    order := Grant(s, order, t, i);
    t := Moved(t, s.sh.(votedFor := Some(s.votes[i].candidate)), i, Finished(true));
    NewerStill(s, t, u);
    order, t := Clear(s, order, t, u);
    order := Grant(s, order, t, j);
    var e := Run(s, order);
    assert e.votes[i] == Handler(s.sh.term, s.votes[i].candidate, Finished(true));
    assert e.votes[j] == Handler(s.sh.term, s.votes[j].candidate, Finished(true));
    assert VotedFor(s, e, s.sh.term, s.votes[i].candidate) && VotedFor(s, e, s.sh.term, s.votes[j].candidate);
  }

  /** Whole starts, one after the other, take the node to any later term. */
  lemma {:induction false} Starts(s: Node, order: seq<Pick>, t: Node, u: nat) returns (more: seq<Pick>, t': Node)
    requires Reaches(s, order, t) && t.start.Idle? && t.sh.term <= u
    ensures Reaches(s, more, t') && t'.sh.term == u && t'.start.Idle?
    ensures t'.me == t.me && t'.votes == t.votes && t'.results == t.results && t'.own >= t.own
    decreases u - t.sh.term
  {
    if t.sh.term == u {
      more, t' := order, t;
    } else {
      more, t' := Candidacy(s, order, t);
      more, t' := Starts(s, more, t', u);
    }
  }

  lemma Candidacy(s: Node, order: seq<Pick>, t: Node) returns (more: seq<Pick>, t': Node)
    requires Reaches(s, order, t) && t.start.Idle?
    ensures Reaches(s, more, t')
    ensures var u := t.sh.term + 1; t' == t.(sh := Shared(u, Some(t.me)), own := t.own + {u})
  {
    var u := t.sh.term + 1;
    more := Then(s, order, t, Own);
    more := Then(s, more, t.(sh := t.sh.(term := u), start := Bumped(u)), Own);
    t' := t.(sh := Shared(u, Some(t.me)), own := t.own + {u});
  }

  /** The node bumps its term and votes for itself after handler `i` has read the
      term before; `i` then writes the same term and clears that vote. */
  lemma OwnRaceFrom(s: Node, order: seq<Pick>, t: Node, i: nat) returns (more: seq<Pick>)
    requires Fresh(s) && Reaches(s, order, t) && t.me == s.me && t.start.Idle?
    requires i in t.votes && t.votes[i].at == Begin && t.votes[i].term == t.sh.term + 1 && t.votes[i].candidate != s.me
    ensures Valid(s, more) && DoubleVote(s, Run(s, more))
  {
    var u, c := t.votes[i].term, t.votes[i].candidate;
    more := Read(s, order, t, i);
    var a;
    more, a := Candidacy(s, more, Moved(t, t.sh, i, ReadTerm(t.sh.term)));
    more := WriteAndGrant(s, more, a, i);
    var f := Run(s, more);
    assert f.votes[i] == Handler(u, c, Finished(true)) && u in f.own;
    assert VotedFor(s, f, u, c) && VotedFor(s, f, u, s.me);
  }

  lemma OwnRace(s: Node, i: nat) returns (order: seq<Pick>)
    requires Fresh(s) && RivalsOwn(s, i)
    ensures Valid(s, order) && DoubleVote(s, Run(s, order))
  {
    var t;
    order, t := Starts(s, [], s, s.votes[i].term - 1);
    order := OwnRaceFrom(s, order, t, i);
  }

  lemma WantsRace(s: Node, u: nat, c: NodeId, d: NodeId) returns (order: seq<Pick>)
    requires Fresh(s) && Newer(s, u) && Wants(s, c) && Wants(s, d) && c != d
    ensures Valid(s, order) && DoubleVote(s, Run(s, order))
  {
    if s.sh.votedFor.Some? {
      var held := s.sh.votedFor.value;
      var other := if held == c then d else c;
      var i :| i in s.votes && s.votes[i].term == s.sh.term && s.votes[i].candidate == other;
      order := HeldRace(s, i, u);
    } else {
      var i :| i in s.votes && s.votes[i].term == s.sh.term && s.votes[i].candidate == c;
      var j :| j in s.votes && s.votes[j].term == s.sh.term && s.votes[j].candidate == d;
      order := CurrentRace(s, i, j, u);
    }
  }

  lemma ConflictRaces(s: Node) returns (order: seq<Pick>)
    requires Fresh(s) && Conflict(s)
    ensures Valid(s, order) && DoubleVote(s, Run(s, order))
  {
    if i, j :| Rivals(s, i, j) {
      var t;
      order, t := RivalsRace(s, i, j);
      var u := s.votes[i].term;
      assert t.votes[i] == Handler(u, s.votes[i].candidate, Finished(true));
      assert t.votes[j] == Handler(u, s.votes[j].candidate, Finished(true));
      assert VotedFor(s, t, u, s.votes[i].candidate) && VotedFor(s, t, u, s.votes[j].candidate);
    } else if i :| RivalsOwn(s, i) {
      order := OwnRace(s, i);
    } else {
      var u :| Newer(s, u);
      var c, d :| Wants(s, c) && Wants(s, d) && c != d;
      order := WantsRace(s, u, c, d);
    }
  }

  /**
   A node can vote for two candidates in one term, counting the vote it holds
   and its own candidacy, in some interleaving of its handlers if and only if
   two requests of one newer term are among them; or the vote of the current
   term is wanted by two, one of whom may hold it, while a newer request or
   result arrives; or there is a newer request while the node's own election loop
   runs.
   */
  lemma RaceWindow(s: Node)
    requires Fresh(s)
    ensures CanDoubleVote(s) <==> Conflict(s)
  {
    if Conflict(s) {
      var order := ConflictRaces(s);
    } else {
      forall order | Valid(s, order) ensures !DoubleVote(s, Run(s, order)) {
        NoConflictIsSafe(s, order);
      }
    }
  }

  /** For two requests alone: equal newer terms, or a request of the current term
      against the vote held together with a newer one. */
  predicate TwoConflict(sh: Shared, p: Handler, q: Handler) {
    || (p.term == q.term > sh.term && p.candidate != q.candidate)
    || (sh.votedFor.Some? && p.term == sh.term < q.term && p.candidate != sh.votedFor.value)
    || (sh.votedFor.Some? && q.term == sh.term < p.term && q.candidate != sh.votedFor.value)
  }

  lemma ConflictOfTwo(s: Node, p: Handler, q: Handler)
    requires s.start.Absent? && s.results == {} && s.votes == map[0 := p, 1 := q]
    ensures Conflict(s) <==> TwoConflict(s.sh, p, q)
  {
    assert s.votes[0] == p && s.votes[1] == q && s.votes.Keys == {0, 1};
    assert p.term > s.sh.term ==> Newer(s, p.term);
    assert q.term > s.sh.term ==> Newer(s, q.term);
    assert p.term == s.sh.term ==> Wants(s, p.candidate);
    assert q.term == s.sh.term ==> Wants(s, q.candidate);
    assert s.sh.votedFor.Some? ==> Wants(s, s.sh.votedFor.value);
    if TwoConflict(s.sh, p, q) {
      assert p.term == q.term > s.sh.term && p.candidate != q.candidate ==> Rivals(s, 0, 1);
    }
    if i, j :| Rivals(s, i, j) {
      assert i in {0, 1} && j in {0, 1};
    }
  }

  lemma TwoRequests(me: NodeId, sh: Shared, p: Handler, q: Handler)
    requires p.at == q.at == Begin && p.candidate != me && q.candidate != me
    ensures CanDoubleVote(Node(me, sh, Absent, {}, map[0 := p, 1 := q], {})) <==> TwoConflict(sh, p, q)
  {
    var s := Node(me, sh, Absent, {}, map[0 := p, 1 := q], {});
    RaceWindow(s);
    ConflictOfTwo(s, p, q);
  }
}
