/**
 How the lock-level steps of one node fit the cluster machine
 (waf-cluster/src/election/mod.rs).
 */
module ElectionSplit {
  import opened Basics
  import opened ElectionRace
  import opened ElectionVotes
  import Election
  import ElectionDoubles

  /** Whenever the cluster machine lets a node grant twice, some interleaving of the
      two handlers at that node does so, and leaves it in the same state. */
  lemma DoubleGrantIsReal(c: Election.Cluster, to: NodeId, term: nat, a: NodeId, b: NodeId)
    returns (s: Node, order: seq<Pick>)
    requires ElectionDoubles.Can(c, ElectionDoubles.Double(to, term, a, b))
    ensures s == Node(to, Shared(c.nodes[to].term, c.nodes[to].votedFor), Absent, {},
                      map[0 := Handler(term, a, Begin), 1 := Handler(term, b, Begin)], {})
    ensures Valid(s, order)
    ensures var e := Run(s, order);
      && 0 in e.votes && 1 in e.votes && e.votes[0].at == e.votes[1].at == Finished(true)
      && ElectionDoubles.OnDouble(c, to, term, a, b).nodes[to]
         == c.nodes[to].(term := e.sh.term, votedFor := e.sh.votedFor)
  {
    s := Node(to, Shared(c.nodes[to].term, c.nodes[to].votedFor), Absent, {},
              map[0 := Handler(term, a, Begin), 1 := Handler(term, b, Begin)], {});
    assert s.votes[0] == Handler(term, a, Begin) && s.votes[1] == Handler(term, b, Begin);
    assert Rivals(s, 0, 1);
    var t;
    order, t := RivalsRace(s, 0, 1);
  }

  // ---------------------------------------------------------------------------
  // Without interference
  // ---------------------------------------------------------------------------

  /** Run one handler with no interference. */
  function Alone(sh: Shared, h: Handler): (Shared, bool)
    decreases match h.at
      case Begin => 4 case ReadTerm(_) => 3 case WroteTerm => 2 case Decide => 1 case Finished(_) => 0
  {
    if h.at.Finished? then (sh, h.at.granted)
    else var (sh', h') := Advance(sh, h); Alone(sh', h')
  }

  /** Without interference the lock steps add up to the operation of the
      cluster model. */
  lemma AloneIsProcessVote(n: Election.NodeState, term: nat, candidate: NodeId)
    ensures var (sh, granted) := Alone(Shared(n.term, n.votedFor), Handler(term, candidate, Begin));
      Election.ProcessVote(n, term, candidate) == (n.(term := sh.term, votedFor := sh.votedFor), granted)
  {
    var s0, h0 := Shared(n.term, n.votedFor), Handler(term, candidate, Begin);
    var (s1, h1) := Advance(s0, h0);
    var (s2, h2) := Advance(s1, h1);
    if term > n.term {
      var (s3, h3) := Advance(s2, h2);
      assert h3.at == Decide && s3 == Shared(term, None);
      var (s4, h4) := Advance(s3, h3);
      assert Alone(s3, h3) == Alone(s4, h4) == (s4, true);
    }
    assert Alone(s0, h0) == Alone(s1, h1) == Alone(s2, h2);
  }

  /** So does the one step of a result, and the two of an own start. */
  lemma HearIsProcessResult(s: Node, t: nat, n: Election.NodeState, elected: NodeId)
    requires t in s.results && s.sh == Shared(n.term, n.votedFor)
    ensures var m := Election.ProcessResult(s.me, n, t, elected);
      Next(s, Hear(t)).sh == Shared(m.term, m.votedFor)
  {
  }

  lemma OwnIsStartElection(s: Node, n: Election.NodeState)
    requires s.start.Idle? && s.sh == Shared(n.term, n.votedFor)
    ensures var m := Election.StartElection(s.me, n);
      Next(Next(s, Own), Own).sh == Shared(m.term, m.votedFor) && m.term in Next(Next(s, Own), Own).own
  {
  }
}
