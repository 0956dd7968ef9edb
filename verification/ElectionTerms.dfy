/**
 Terms under interleaving: `process_vote` writes the term without looking at it
 again (waf-cluster/src/election/mod.rs), so it can go back.
 */
module ElectionTerms {
  import opened Basics
  import opened ElectionRace
  import opened ElectionVotes

  /** Some step of some interleaving lowers the term. */
  ghost predicate CanLowerTerm(s: Node) {
    exists order, p :: Valid(s, order) && Lowers(Run(s, order), p)
  }

  predicate Lowers(s: Node, p: Pick) {
    Enabled(s, p) && Next(s, p).sh.term < s.sh.term
  }

  /** Something other than request `i` carries term `u`. */
  ghost predicate Carries(s: Node, i: nat, u: nat) {
    u in s.results || exists j :: j in s.votes && j != i && s.votes[j].term == u
  }

  /** Request `i` has a newer term, and that can be exceeded before it is written:
      by a later one that something else carries, or by the node's own starts. */
  ghost predicate Overtaken(s: Node, i: nat) {
    && i in s.votes && s.votes[i].term > s.sh.term
    && (!s.start.Absent? || exists u: nat :: Carries(s, i, u) && u > s.votes[i].term)
  }

  /** Requests that have not written their term yet are not behind. */
  ghost predicate NotBehind(s0: Node, s: Node) {
    forall i <- s.votes ::
      s.votes[i].term > s0.sh.term && (s.votes[i].at == Begin || s.votes[i].at.ReadTerm?) ==>
        s.start.Absent? && s.sh.term <= s.votes[i].term
  }

  lemma WriteKeepsNotBehind(s0: Node, s: Node, i: nat)
    requires Known(s0, s) && NotBehind(s0, s) && (forall k :: !Overtaken(s0, k)) && Enabled(s, Vote(i))
    requires s.votes[i].at.ReadTerm? && s.votes[i].term > s.votes[i].at.seen
    ensures NotBehind(s0, Next(s, Vote(i))) && !Lowers(s, Vote(i))
  {
    var s', u := Next(s, Vote(i)), s.votes[i].term;
    forall k <- s'.votes |
      s'.votes[k].term > s0.sh.term && (s'.votes[k].at == Begin || s'.votes[k].at.ReadTerm?)
      ensures s'.start.Absent? && s'.sh.term <= s'.votes[k].term
    {
      assert k != i && s0.votes[i].term == u;
      assert Carries(s0, k, u);
      assert !Overtaken(s0, k);
    }
  }

  lemma StepKeepsNotBehind(s0: Node, s: Node, p: Pick)
    requires Fresh(s0) && Known(s0, s) && NotBehind(s0, s) && (forall k :: !Overtaken(s0, k)) && Enabled(s, p)
    ensures NotBehind(s0, Next(s, p)) && !Lowers(s, p)
  {
    match p {
      case Vote(i) =>
        if s.votes[i].at.ReadTerm? && s.votes[i].term > s.votes[i].at.seen {
          WriteKeepsNotBehind(s0, s, i);
        } else {
          assert Next(s, p).sh.term == s.sh.term;
        }
      case Hear(u) =>
        forall k <- s.votes | s.votes[k].term > s0.sh.term
          ensures s.start.Absent? && u <= s.votes[k].term
        {
          assert Carries(s0, k, u);
          assert !Overtaken(s0, k);
        }
      case Own =>
    }
  }

  lemma {:induction false} RunNotBehind(s0: Node, order: seq<Pick>)
    requires Fresh(s0) && Valid(s0, order) && forall k :: !Overtaken(s0, k)
    ensures NotBehind(s0, Run(s0, order))
    decreases |order|
  {
    if order == [] {
      assert forall i <- s0.votes :: !Overtaken(s0, i);
    } else {
      var before := order[..|order| - 1];
      RunNotBehind(s0, before);
      RunKeepsInv(s0, before);
      StepKeepsNotBehind(s0, Run(s0, before), order[|order| - 1]);
    }
  }

  /** `i` reads, something takes the term past its own, `i` writes. */
  lemma OvertakenLowers(s: Node, i: nat, u: nat) returns (order: seq<Pick>, t: Node)
    requires Fresh(s) && i in s.votes && u > s.votes[i].term > s.sh.term
    requires Carries(s, i, u) || s.start.Idle?
    ensures Reaches(s, order, t) && Lowers(t, Vote(i))
  {
    var r := ReadTerm(s.sh.term);
    order := Read(s, [], s, i);
    t := Moved(s, s.sh, i, r);
    if u in s.results {
      order := Then(s, order, t, Hear(u));
      t := Next(t, Hear(u));
    } else if j :| j in s.votes && j != i && s.votes[j].term == u {
      order := Read(s, order, t, j);
      t := Moved(t, s.sh, j, r);
      order := Then(s, order, t, Vote(j));
      t := Moved(t, s.sh.(term := u), j, WroteTerm);
    } else {
      order, t := Starts(s, order, t, u);
    }
  }

  /**
   The term can go back in some interleaving if and only if some newer request
   can be overtaken: by another request or result of a later term, or by the
   node's own starts, if its election loop runs.
   */
  lemma TermGoesBack(s: Node)
    requires Fresh(s)
    ensures CanLowerTerm(s) <==> exists i :: Overtaken(s, i)
  {
    if i :| Overtaken(s, i) {
      var u: nat := s.votes[i].term + 1;
      if s.start.Absent? {
        u :| Carries(s, i, u) && u > s.votes[i].term;
      }
      var order, t := OvertakenLowers(s, i, u);
      assert Lowers(Run(s, order), Vote(i));
    } else {
      forall order, p | Valid(s, order) ensures !Lowers(Run(s, order), p) {
        RunNotBehind(s, order);
        RunKeepsInv(s, order);
        if Enabled(Run(s, order), p) {
          StepKeepsNotBehind(s, Run(s, order), p);
        }
      }
    }
  }
}
