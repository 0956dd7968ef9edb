/**
 Who is Main, and of which term (waf-cluster/src/election/mod.rs and
 waf-cluster/src/node.rs).  A win is for the term of the ballot, but the role is
 kept apart from the term: a vote raises the term of a Main without demoting it,
 and neither a tally nor a stale result looks at the term before it sets the role.
 */
module ElectionRoles {
  import opened Basics
  import opened Election

  ghost predicate WonIn(s: Cluster, n: NodeId, term: nat) {
    exists w :: w in s.wins && w.node == n && w.term == term
  }

  /** `n` is configured as Main in the cluster `s0` that the run started from. */
  predicate Configured(s0: Cluster, n: NodeId) {
    n in s0.nodes && s0.nodes[n].role == Main
  }

  /** `n` may be Main in the term it reports: it has won that term, or is
      configured as Main and no election has reached it. */
  ghost predicate Entitled(s0: Cluster, s: Cluster, n: NodeId)
    requires n in s.nodes
  {
    WonIn(s, n, s.nodes[n].term) || (Configured(s0, n) && s.nodes[n].term == 0)
  }

  /** Every Main is entitled to the term it reports. */
  ghost predicate Honest(s0: Cluster, s: Cluster) {
    forall n <- s.nodes :: s.nodes[n].role == Main ==> Entitled(s0, s, n)
  }

  /** Results on the wire are those of wins. */
  ghost predicate ResultsAreWins(s: Cluster) {
    forall m <- s.sent :: m.Result? ==> WonIn(s, m.elected, m.term)
  }

  ghost predicate NoMain(s: Cluster) {
    forall n <- s.nodes :: s.nodes[n].role != Main
  }

  predicate Majority(s: Cluster, n: NodeId)
    requires n in s.nodes && n in s.ballots
  {
    IsMajority(|VotesIn(s.nodes[n], s.ballots[n].term)|, s.ballots[n].total)
  }

  /** The three ways in which a Main comes to report a term it is not entitled to:
      it is promoted after its term moved on, its term moves on while it is Main, or
      it takes the single-node path. */
  ghost predicate Slips(s0: Cluster, s: Cluster, step: Step)
    requires Enabled(s, step)
  {
    match step
    case Tally(n) => Majority(s, n) && s.nodes[n].term != s.ballots[n].term
    case DeliverRequest(m, to) => s.nodes[to].role == Main && m.term > s.nodes[to].term
    case ClaimAlone(n) => !Entitled(s0, s, n)
    case _ => false
  }

  // ---------------------------------------------------------------------------
  // Steps
  // ---------------------------------------------------------------------------

  lemma WinsOnlyGrow(s: Cluster, step: Step)
    requires Enabled(s, step)
    ensures s.wins <= Apply(s, step).wins
    ensures forall n: NodeId, t: nat :: WonIn(s, n, t) ==> WonIn(Apply(s, step), n, t)
  {
  }

  lemma ResultsStayWins(s: Cluster, step: Step)
    requires Enabled(s, step) && ResultsAreWins(s)
    ensures ResultsAreWins(Apply(s, step))
  {
    WinsOnlyGrow(s, step);
    var f := Apply(s, step);
    forall m <- f.sent | m.Result? ensures WonIn(f, m.elected, m.term) {
      if m !in s.sent {
        var n := step.node;
        var b := s.ballots[n];
        assert Win(b.term, n, VotesIn(s.nodes[n], b.term), b.total) in f.wins;
      }
    }
  }

  lemma TallyHonest(s0: Cluster, s: Cluster, n: NodeId)
    requires Inv(s) && Honest(s0, s) && Enabled(s, Tally(n))
    ensures Honest(s0, Apply(s, Tally(n))) <==> !Slips(s0, s, Tally(n))
  {
    WinsOnlyGrow(s, Tally(n));
    var f := Apply(s, Tally(n));
    var b := s.ballots[n];
    if Majority(s, n) {
      assert Win(b.term, n, VotesIn(s.nodes[n], b.term), b.total) in f.wins;
      assert WonIn(f, n, b.term);
      assert forall w <- f.wins :: w.node == n ==> w.term <= b.term;
      assert f.nodes[n].role == Main && f.nodes[n].term == s.nodes[n].term;
      assert b.term != s.nodes[n].term ==> !WonIn(f, n, f.nodes[n].term);
    } else {
      assert f.nodes[n].role == Worker;
    }
    assert forall x <- s.nodes :: x != n ==> f.nodes[x] == s.nodes[x];
  }

  lemma RequestHonest(s0: Cluster, s: Cluster, m: Message, to: NodeId)
    requires Inv(s) && Honest(s0, s) && Enabled(s, DeliverRequest(m, to))
    ensures Honest(s0, Apply(s, DeliverRequest(m, to))) <==> !Slips(s0, s, DeliverRequest(m, to))
  {
    WinsOnlyGrow(s, DeliverRequest(m, to));
    var f := Apply(s, DeliverRequest(m, to));
    assert f.wins == s.wins && f.nodes[to].role == s.nodes[to].role;
  }

  lemma ClaimHonest(s0: Cluster, s: Cluster, n: NodeId)
    requires Honest(s0, s) && Enabled(s, ClaimAlone(n))
    ensures Honest(s0, Apply(s, ClaimAlone(n))) <==> !Slips(s0, s, ClaimAlone(n))
  {
    var f := Apply(s, ClaimAlone(n));
    assert f.wins == s.wins && f.nodes[n].role == Main;
    assert forall x <- s.nodes :: Entitled(s0, f, x) <==> Entitled(s0, s, x);
  }

  lemma StepHonest(s0: Cluster, s: Cluster, step: Step)
    requires Inv(s) && ResultsAreWins(s) && Honest(s0, s) && Enabled(s, step)
    ensures Honest(s0, Apply(s, step)) <==> !Slips(s0, s, step)
  {
    match step {
      case Tally(n) => TallyHonest(s0, s, n);
      case DeliverRequest(m, to) => RequestHonest(s0, s, m, to);
      case ClaimAlone(n) => ClaimHonest(s0, s, n);
      case _ => WinsOnlyGrow(s, step);
    }
  }

  // ---------------------------------------------------------------------------
  // Runs
  // ---------------------------------------------------------------------------

  lemma {:induction false} RunResultsAreWins(s: Cluster, steps: seq<Step>)
    requires Init(s) && ValidRun(s, steps)
    ensures ResultsAreWins(Exec(s, steps))
    decreases |steps|
  {
    if steps != [] {
      RunResultsAreWins(s, steps[..|steps| - 1]);
      ResultsStayWins(Exec(s, steps[..|steps| - 1]), steps[|steps| - 1]);
    }
  }

  /** Every state of the run is honest. */
  ghost predicate AlwaysHonest(s: Cluster, steps: seq<Step>)
    requires ValidRun(s, steps)
    decreases |steps|
  {
    Honest(s, Exec(s, steps)) && (steps != [] ==> AlwaysHonest(s, steps[..|steps| - 1]))
  }

  ghost predicate NoSlips(s: Cluster, steps: seq<Step>)
    requires ValidRun(s, steps)
    decreases |steps|
  {
    steps == [] ||
    (NoSlips(s, steps[..|steps| - 1]) && !Slips(s, Exec(s, steps[..|steps| - 1]), steps[|steps| - 1]))
  }

  /**
   Every Main is entitled to the term it reports, at every moment of a run, if and
   only if no winning tally comes after its node moved on, no request of a newer
   term reaches a Main, and nobody takes the single-node path who is not entitled
   to its term.  Any nodes may be configured as Main.
   */
  lemma {:induction false} HonestIff(s: Cluster, steps: seq<Step>)
    requires Init(s) && ValidRun(s, steps)
    ensures AlwaysHonest(s, steps) <==> NoSlips(s, steps)
    decreases |steps|
  {
    if steps != [] {
      var before, last := steps[..|steps| - 1], steps[|steps| - 1];
      HonestIff(s, before);
      RunKeepsInv(s, before);
      RunResultsAreWins(s, before);
      if AlwaysHonest(s, before) {
        StepHonest(s, Exec(s, before), last);
      }
    }
  }

  /** A winning tally makes its node Main of a term it has won if and only if the
      node has not moved to a later term since it opened the ballot. */
  lemma TallyClaimsItsTerm(s: Cluster, steps: seq<Step>, n: NodeId)
    requires Init(s) && ValidRun(s, steps)
    requires Enabled(Exec(s, steps), Tally(n)) && Majority(Exec(s, steps), n)
    ensures var e := Exec(s, steps); var f := Apply(e, Tally(n));
      f.nodes[n].role == Main && (WonIn(f, n, f.nodes[n].term) <==> e.nodes[n].term == e.ballots[n].term)
  {
    RunKeepsInv(s, steps);
    var e := Exec(s, steps);
    var b := e.ballots[n];
    assert Win(b.term, n, VotesIn(e.nodes[n], b.term), b.total) in Apply(e, Tally(n)).wins;
  }

  ghost predicate CountsCover(s: Cluster, e: Cluster) {
    forall w <- e.wins :: Covers(w.total, |s.nodes|)
  }

  /** Two Mains of one term: at most one of them has won it. */
  lemma HonestMainsDiffer(s: Cluster, steps: seq<Step>, a: NodeId, b: NodeId)
    requires Init(s) && ValidRun(s, steps) && CountsCover(s, Exec(s, steps))
    requires var e := Exec(s, steps);
      a in e.nodes && b in e.nodes && e.nodes[a].term == e.nodes[b].term
      && WonIn(e, a, e.nodes[a].term) && WonIn(e, b, e.nodes[b].term)
    ensures a == b
  {
    ElectionSafety(s, steps);
  }

  /** Both are Main and report the same term. */
  predicate SharedTerm(e: Cluster, a: NodeId, b: NodeId)
    requires a in e.nodes && b in e.nodes
  {
    e.nodes[a].role == e.nodes[b].role == Main && e.nodes[a].term == e.nodes[b].term
  }

  ghost predicate OneMainPerTerm(e: Cluster) {
    forall a, b :: a in e.nodes && b in e.nodes && SharedTerm(e, a, b) ==> a == b
  }

  /** Elections are for terms above 0. */
  ghost predicate TermsPositive(s: Cluster) {
    (forall n <- s.ballots :: s.ballots[n].term > 0) && (forall w <- s.wins :: w.term > 0)
  }

  lemma StepTermsPositive(s: Cluster, step: Step)
    requires TermsPositive(s) && Enabled(s, step)
    ensures TermsPositive(Apply(s, step))
  {
  }

  lemma {:induction false} RunTermsPositive(s: Cluster, steps: seq<Step>)
    requires Init(s) && ValidRun(s, steps)
    ensures TermsPositive(Exec(s, steps))
    decreases |steps|
  {
    if steps != [] {
      RunTermsPositive(s, steps[..|steps| - 1]);
      StepTermsPositive(Exec(s, steps[..|steps| - 1]), steps[|steps| - 1]);
    }
  }

  lemma EntitledDiffer(s: Cluster, steps: seq<Step>, a: NodeId, b: NodeId)
    requires Init(s) && ValidRun(s, steps) && CountsCover(s, Exec(s, steps)) && OneMainPerTerm(s)
    requires var e := Exec(s, steps);
      a in e.nodes && b in e.nodes && e.nodes[a].term == e.nodes[b].term && Entitled(s, e, a) && Entitled(s, e, b)
    ensures a == b
  {
    RunTermsPositive(s, steps);
    var e := Exec(s, steps);
    if e.nodes[a].term == 0 {
      assert SharedTerm(s, a, b);
    } else {
      HonestMainsDiffer(s, steps, a, b);
    }
  }

  /** No two Mains report the same term, at any moment of the run. */
  ghost predicate AlwaysOneMain(s: Cluster, steps: seq<Step>)
    requires ValidRun(s, steps)
    decreases |steps|
  {
    OneMainPerTerm(Exec(s, steps)) && (steps != [] ==> AlwaysOneMain(s, steps[..|steps| - 1]))
  }

  /**
   Without slips and with counts that cover the cluster, no two Mains ever report
   the same term, if and only if at most one node is configured as Main.
   */
  lemma {:induction false} NoSlipsOneMain(s: Cluster, steps: seq<Step>)
    requires Init(s) && ValidRun(s, steps) && CountsCover(s, Exec(s, steps)) && NoSlips(s, steps)
    ensures AlwaysOneMain(s, steps) <==> forall a, b :: Configured(s, a) && Configured(s, b) ==> a == b
    decreases |steps|
  {
    if steps == [] {
      AtMostOneConfigured(s);
    } else {
      var before := steps[..|steps| - 1];
      WinsOnlyGrow(Exec(s, before), steps[|steps| - 1]);
      NoSlipsOneMain(s, before);
      AtMostOneConfigured(s);
      if OneMainPerTerm(s) {
        HonestIff(s, steps);
        var e := Exec(s, steps);
        forall a, b | a in e.nodes && b in e.nodes && SharedTerm(e, a, b) ensures a == b {
          EntitledDiffer(s, steps, a, b);
        }
      }
    }
  }

  lemma AtMostOneConfigured(s: Cluster)
    requires Init(s)
    ensures OneMainPerTerm(s) <==> forall a, b :: Configured(s, a) && Configured(s, b) ==> a == b
  {
    if a, b :| Configured(s, a) && Configured(s, b) && a != b {
      assert SharedTerm(s, a, b);
    } else {
      forall a, b | a in s.nodes && b in s.nodes && SharedTerm(s, a, b) ensures a == b {
        assert Configured(s, a) && Configured(s, b);
      }
    }
  }

  // ---------------------------------------------------------------------------
  // Both slips lead to two Mains of one term
  // ---------------------------------------------------------------------------

  /** Two nodes that are not configured as Main. */
  predicate TwoIdle(s: Cluster, a: NodeId, b: NodeId) {
    a in s.nodes && b in s.nodes && a != b && s.nodes[a].role != Main && s.nodes[b].role != Main
  }

  /** `a` has its majority for term 1. */
  lemma FirstBallot(s: Cluster, a: NodeId, b: NodeId, total: nat) returns (steps: seq<Step>, quorum: set<NodeId>)
    requires Init(s) && TwoIdle(s, a, b) && 2 <= total && total / 2 + 1 <= |s.nodes|
    ensures ValidRun(s, steps) && Elections(steps, total) && Opened(s, Exec(s, steps), a, 1, quorum, total)
    ensures b in quorum && |quorum| == total / 2 + 1
  {
    assert |s.nodes.Keys| == |s.nodes|;
    quorum := QuorumWith(s.nodes.Keys, a, b, total / 2 + 1);
    steps := OpenFirst(s, a, quorum, total);
  }

  lemma NextCanOpen(s: Cluster, e: Cluster, f: Cluster, a: NodeId, b: NodeId, quorum: set<NodeId>, total: nat)
    requires Init(s) && TwoIdle(s, a, b) && Opened(s, e, a, 1, quorum, total) && b in quorum
    requires f == e || Tallied(e, f, a, total)
    ensures CanOpen(f, b, 1, quorum)
  {
  }

  /** What a cluster looks like after `a` won term 1 and then `b` term 2 with the
      vote of `a`. */
  ghost predicate Raised(s: Cluster, e: Cluster, a: NodeId, b: NodeId) {
    && e.nodes.Keys == s.nodes.Keys && a in e.nodes && b in e.nodes && a != b && SharedTerm(e, a, b)
    && e.nodes[b].term == 2 && WonIn(e, b, 2) && Result(1, a) in e.sent && Result(2, b) in e.sent
    && forall n <- e.nodes :: e.nodes[n].term <= 2
  }

  lemma RaisedIs(s: Cluster, e: Cluster, f: Cluster, g: Cluster, h: Cluster, a: NodeId, b: NodeId,
                 quorum: set<NodeId>, total: nat)
    requires Init(s) && a != b && b in quorum
    requires Opened(s, e, a, 1, quorum, total) && Tallied(e, f, a, total)
    requires Opened(f, g, b, 2, quorum, total) && Tallied(g, h, b, total)
    ensures Raised(s, h, a, b)
  {
    assert Win(2, b, VotesIn(g.nodes[b], 2), total) in h.wins;
    assert g.nodes[a].role == Main;
  }

  /** `a` is Main of term 1; then `b` wins term 2 with the vote of `a`, who stays
      Main. */
  lemma RaisedMain(s: Cluster, a: NodeId, b: NodeId, total: nat) returns (steps: seq<Step>)
    requires Init(s) && TwoIdle(s, a, b) && 2 <= total && total / 2 + 1 <= |s.nodes|
    ensures ValidRun(s, steps) && Elections(steps, total) && Raised(s, Exec(s, steps), a, b)
  {
    var held, quorum := FirstBallot(s, a, b, total);
    var won := WinBallot(s, held, a, total);
    NextCanOpen(s, Exec(s, held), Exec(s, won), a, b, quorum, total);
    var second := OpenBallot(s, won, b, 1, quorum, total);
    steps := WinBallot(s, second, b, total);
    RaisedIs(s, Exec(s, held), Exec(s, won), Exec(s, second), Exec(s, steps), a, b, quorum, total);
  }

  lemma LateIs(s: Cluster, e: Cluster, f: Cluster, g: Cluster, a: NodeId, b: NodeId, quorum: set<NodeId>, total: nat)
    requires Init(s) && a != b && b in quorum && |quorum| == total / 2 + 1
    requires Opened(s, e, a, 1, quorum, total) && Opened(e, f, b, 2, quorum, total) && Tallied(f, g, b, total)
    ensures a in g.ballots && a in g.nodes && g.ballots[a] == Ballot(1, total) && VotesIn(g.nodes[a], 1) == quorum
    ensures b in g.nodes && g.nodes[b].role == Main && g.nodes[b].term == g.nodes[a].term == 2
  {
  }

  /** `a` tallies term 1 only after it voted for `b` in term 2. */
  lemma LateTally(s: Cluster, a: NodeId, b: NodeId, total: nat) returns (steps: seq<Step>)
    requires Init(s) && TwoIdle(s, a, b) && 2 <= total && total / 2 + 1 <= |s.nodes|
    ensures ValidRun(s, steps) && Elections(steps, total)
    ensures var e := Exec(s, steps); a in e.nodes && b in e.nodes && SharedTerm(e, a, b)
  {
    var held, quorum := FirstBallot(s, a, b, total);
    NextCanOpen(s, Exec(s, held), Exec(s, held), a, b, quorum, total);
    var second := OpenBallot(s, held, b, 1, quorum, total);
    var won := WinBallot(s, second, b, total);
    LateIs(s, Exec(s, held), Exec(s, second), Exec(s, won), a, b, quorum, total);
    steps := WinBallot(s, won, a, total);
  }

  ghost predicate TwoMains(s: Cluster, steps: seq<Step>) {
    ValidRun(s, steps) && !OneMainPerTerm(Exec(s, steps))
  }

  /**
   Even with counts that cover the cluster, elections alone end in two Mains of
   one term: once because a vote raises the term of a Main, once because a tally
   comes late.
   */
  lemma TwoMainsReportOneTerm(s: Cluster, a: NodeId, b: NodeId, total: nat) returns (raised: seq<Step>, late: seq<Step>)
    requires Init(s) && TwoIdle(s, a, b)
    requires 2 <= total && total / 2 + 1 <= |s.nodes| && Covers(total, |s.nodes|)
    ensures TwoMains(s, raised) && Elections(raised, total)
    ensures TwoMains(s, late) && Elections(late, total)
  {
    raised := RaisedMain(s, a, b, total);
    late := LateTally(s, a, b, total);
  }

  // ---------------------------------------------------------------------------
  // Results
  // ---------------------------------------------------------------------------

  /**
   Which results take the role from a Main that has won its term, when counts
   cover the cluster: exactly those of another term.  A newer one rightly; an
   older one although the documentation says it is ignored.
   */
  lemma ResultTakesMain(s: Cluster, steps: seq<Step>, m: Message, n: NodeId)
    requires Init(s) && ValidRun(s, steps) && CountsCover(s, Exec(s, steps))
    requires var e := Exec(s, steps);
      Enabled(e, DeliverResult(m, n)) && e.nodes[n].role == Main && WonIn(e, n, e.nodes[n].term)
    ensures var e := Exec(s, steps); var f := Apply(e, DeliverResult(m, n));
      && (f.nodes[n].role != Main <==> m.term != e.nodes[n].term)
      && (m.term < e.nodes[n].term ==> f.nodes[n] == e.nodes[n].(role := Worker))
  {
    RunKeepsInv(s, steps);
    RunResultsAreWins(s, steps);
    ElectionSafety(s, steps);
  }

  /** A result of any older win can be delivered to a Main at any later time, and
      leaves it a Worker of the term it won. */
  lemma StaleResultDemotes(s: Cluster, steps: seq<Step>, w: Win, n: NodeId) returns (step: Step)
    requires Init(s) && ValidRun(s, steps)
    requires var e := Exec(s, steps); w in e.wins && n in e.nodes && e.nodes[n].role == Main && w.term < e.nodes[n].term
    ensures Enabled(Exec(s, steps), step)
    ensures Apply(Exec(s, steps), step).nodes == Exec(s, steps).nodes[n := Exec(s, steps).nodes[n].(role := Worker)]
  {
    RunAnnounces(s, steps);
    step := DeliverResult(Result(w.term, w.node), n);
  }

  lemma {:induction false} RunAnnounces(s: Cluster, steps: seq<Step>)
    requires Init(s) && ValidRun(s, steps)
    ensures forall w <- Exec(s, steps).wins :: Result(w.term, w.node) in Exec(s, steps).sent
    decreases |steps|
  {
    if steps != [] {
      RunAnnounces(s, steps[..|steps| - 1]);
    }
  }

  lemma AllDemoted(s: Cluster, e: Cluster, f: Cluster, a: NodeId, b: NodeId)
    requires Raised(s, e, a, b) && Announced(e, f, 2, e.nodes.Keys - {b})
    ensures Enabled(f, DeliverResult(Result(1, a), b))
    ensures var g := Apply(f, DeliverResult(Result(1, a), b));
      && NoMain(g) && b in g.nodes && WonIn(g, b, g.nodes[b].term)
      && forall n <- g.nodes :: g.nodes[n].term <= g.nodes[b].term
  {
    var g := Apply(f, DeliverResult(Result(1, a), b));
    assert g.wins == e.wins && g.nodes == f.nodes[b := f.nodes[b].(role := Worker)];
  }

  /**
   So a cluster can lose its Main to its own past: in some run of elections with
   covering counts the winner of the newest term has been demoted by the result
   of an older one, and nobody is Main.
   */
  lemma LeaderlessByStaleResult(s: Cluster, a: NodeId, b: NodeId, total: nat) returns (steps: seq<Step>)
    requires Init(s) && TwoIdle(s, a, b)
    requires 2 <= total && total / 2 + 1 <= |s.nodes| && Covers(total, |s.nodes|)
    ensures ValidRun(s, steps) && Elections(steps, total)
    ensures var e := Exec(s, steps);
      && NoMain(e) && b in e.nodes && WonIn(e, b, e.nodes[b].term)
      && forall n <- e.nodes :: e.nodes[n].term <= e.nodes[b].term
  {
    var raised := RaisedMain(s, a, b, total);
    var e := Exec(s, raised);
    var heard := Announce(s, raised, b, 2, e.nodes.Keys - {b}, total);
    AllDemoted(s, e, Exec(s, heard), a, b);
    var stale := DeliverResult(Result(1, a), b);
    Extend(s, heard, stale);
    steps := heard + [stale];
  }
}
