/**
 What double grants do to the cluster: the machine of complete handler calls with
 one more event, in which a node handles two requests of a newer term at once and
 grants both.
 */
module ElectionDoubles {
  import opened Basics
  import opened Election

  datatype Event = Plain(step: Step) | Double(to: NodeId, term: nat, a: NodeId, b: NodeId)

  predicate Can(s: Cluster, ev: Event) {
    match ev
    case Plain(step) => Enabled(s, step)
    case Double(to, term, a, b) =>
      && to in s.nodes && s.nodes[to].term < term && a != b && a != to && b != to
      && Request(term, a) in s.sent && Request(term, b) in s.sent
  }

  /** Node `to` handles the requests of `a` and `b` for `term` in the losing order. */
  function OnDouble(s: Cluster, to: NodeId, term: nat, a: NodeId, b: NodeId): Cluster
    requires to in s.nodes
  {
    SetNode(s, to, s.nodes[to].(term := term, votedFor := Some(b))).(
      sent := s.sent + {Grant(term, a, to), Grant(term, b, to)},
      cast := s.cast + {Vote(to, term, a), Vote(to, term, b)})
  }

  function Do(s: Cluster, ev: Event): Cluster
    requires Can(s, ev)
  {
    match ev
    case Plain(step) => Apply(s, step)
    case Double(to, term, a, b) => OnDouble(s, to, term, a, b)
  }

  predicate EventRun(s: Cluster, events: seq<Event>)
    decreases |events|, 0
  {
    events == [] ||
    (EventRun(s, events[..|events| - 1]) && Can(EventExec(s, events[..|events| - 1]), events[|events| - 1]))
  }

  function EventExec(s: Cluster, events: seq<Event>): Cluster
    requires EventRun(s, events)
    decreases |events|, 1
  {
    if events == [] then s else Do(EventExec(s, events[..|events| - 1]), events[|events| - 1])
  }

  function DoubledBy(ev: Event): set<NodeId> {
    if ev.Double? then {ev.to} else {}
  }

  /** The nodes that ever granted twice. */
  function Doubled(events: seq<Event>): set<NodeId> {
    if events == [] then {} else Doubled(events[..|events| - 1]) + DoubledBy(events[|events| - 1])
  }

  predicate CountIs(ev: Event, total: nat) {
    ev.Plain? && ev.step.Start? ==> ev.step.total == total
  }

  predicate AllCountsAre(events: seq<Event>, total: nat) {
    forall ev <- events :: CountIs(ev, total)
  }

  // ---------------------------------------------------------------------------
  // How many double grants it takes at least
  // ---------------------------------------------------------------------------

  /** Every node outside `d` votes once per term and remembers it; votes that were
      counted were cast, and wins are backed. */
  ghost predicate InvBut(s: Cluster, d: set<NodeId>) {
    && (forall v, w :: v in s.cast && w in s.cast && v.voter == w.voter && v.term == w.term && v.voter !in d ==> v == w)
    && (forall v <- s.cast :: v.voter in s.nodes && (v.voter !in d ==> Remembered(s.nodes[v.voter], v)))
    && CountedVotesWereCast(s) && WinsAreBacked(s)
  }

  predicate Remembered(n: NodeState, v: Vote) {
    v.term <= n.term && (v.term == n.term ==> n.votedFor == Some(v.candidate))
  }

  lemma StartKeeps(s: Cluster, d: set<NodeId>, n: NodeId, total: nat)
    requires InvBut(s, d) && Enabled(s, Start(n, total))
    ensures InvBut(OnStart(s, n, total), d)
  {
    var s' := OnStart(s, n, total);
    var t := s.nodes[n].term + 1;
    forall c, k, v | c in s'.nodes && v in VotesIn(s'.nodes[c], k) ensures Vote(v, k, c) in s'.cast {
      assert v in VotesIn(s.nodes[c], k) || Vote(v, k, c) == Vote(n, t, n);
    }
  }

  lemma RequestKeeps(s: Cluster, d: set<NodeId>, term: nat, candidate: NodeId, to: NodeId)
    requires InvBut(s, d) && to in s.nodes
    ensures InvBut(OnRequest(s, term, candidate, to), d)
  {
    var s' := OnRequest(s, term, candidate, to);
    forall c, k, v | c in s'.nodes && v in VotesIn(s'.nodes[c], k) ensures Vote(v, k, c) in s'.cast {
      assert v in VotesIn(s.nodes[c], k);
    }
  }

  lemma GrantKeeps(s: Cluster, d: set<NodeId>, m: Message)
    requires InvBut(s, d) && Enabled(s, DeliverGrant(m))
    ensures InvBut(Apply(s, DeliverGrant(m)), d)
  {
    var s' := Apply(s, DeliverGrant(m));
    forall c, k, v | c in s'.nodes && v in VotesIn(s'.nodes[c], k) ensures Vote(v, k, c) in s'.cast {
      assert v in VotesIn(s.nodes[c], k) || Vote(v, k, c) == Vote(m.voter, m.term, m.candidate);
    }
  }

  lemma RoleChangeKeeps(s: Cluster, d: set<NodeId>, n: NodeId, v: NodeState)
    requires InvBut(s, d) && n in s.nodes && v.votes == s.nodes[n].votes
    requires v.term > s.nodes[n].term || (v.term == s.nodes[n].term && v.votedFor == s.nodes[n].votedFor)
    ensures InvBut(SetNode(s, n, v), d)
  {
    var s' := SetNode(s, n, v);
    forall c, k, x | c in s'.nodes && x in VotesIn(s'.nodes[c], k) ensures Vote(x, k, c) in s'.cast {
      assert x in VotesIn(s.nodes[c], k);
    }
  }

  lemma TallyKeeps(s: Cluster, d: set<NodeId>, n: NodeId)
    requires InvBut(s, d) && Enabled(s, Tally(n))
    ensures InvBut(OnTally(s, n), d)
  {
    var b := s.ballots[n];
    var voters := VotesIn(s.nodes[n], b.term);
    var role := if IsMajority(|voters|, b.total) then Main else Worker;
    RoleChangeKeeps(s.(ballots := s.ballots - {n}), d, n, s.nodes[n].(role := role));
  }

  lemma DoubleKeeps(s: Cluster, d: set<NodeId>, to: NodeId, term: nat, a: NodeId, b: NodeId)
    requires InvBut(s, d) && Can(s, Double(to, term, a, b))
    ensures InvBut(OnDouble(s, to, term, a, b), d + {to})
  {
    var s' := OnDouble(s, to, term, a, b);
    forall c, k, v | c in s'.nodes && v in VotesIn(s'.nodes[c], k) ensures Vote(v, k, c) in s'.cast {
      assert v in VotesIn(s.nodes[c], k);
    }
  }

  lemma DoKeeps(s: Cluster, d: set<NodeId>, ev: Event)
    requires InvBut(s, d) && Can(s, ev)
    ensures InvBut(Do(s, ev), d + DoubledBy(ev)) && Do(s, ev).nodes.Keys == s.nodes.Keys
  {
    if ev.Double? {
      DoubleKeeps(s, d, ev.to, ev.term, ev.a, ev.b);
    } else {
      assert d + {} == d;
      match ev.step
      case Start(n, total) => StartKeeps(s, d, n, total);
      case DeliverRequest(m, to) => RequestKeeps(s, d, m.term, m.candidate, to);
      case DeliverGrant(m) => GrantKeeps(s, d, m);
      case DeliverResult(m, to) => RoleChangeKeeps(s, d, to, ProcessResult(to, s.nodes[to], m.term, m.elected));
      case Tally(n) => TallyKeeps(s, d, n);
      case ClaimAlone(n) => RoleChangeKeeps(s, d, n, s.nodes[n].(role := Main));
    }
  }

  lemma {:induction false} EventsKeep(s: Cluster, events: seq<Event>)
    requires Init(s) && EventRun(s, events)
    ensures InvBut(EventExec(s, events), Doubled(events)) && EventExec(s, events).nodes.Keys == s.nodes.Keys
    decreases |events|
  {
    if events != [] {
      var before := events[..|events| - 1];
      EventsKeep(s, before);
      DoKeeps(EventExec(s, before), Doubled(before), events[|events| - 1]);
    }
  }

  lemma Overlap(whole: set<NodeId>, a: set<NodeId>, b: set<NodeId>)
    requires a <= whole && b <= whole
    ensures |a * b| + |whole| >= |a| + |b|
  {
    assert |a + b| == |a| + |b| - |a * b|;
    SubsetSize(a + b, whole);
  }

  /** Two nodes that win one term share voters, and every voter they share granted
      twice. */
  lemma SharedVotersDoubled(s: Cluster, events: seq<Event>, v: Win, w: Win)
    requires Init(s) && EventRun(s, events)
    requires v in EventExec(s, events).wins && w in EventExec(s, events).wins && v.term == w.term && v.node != w.node
    ensures |Doubled(events)| + |s.nodes| >= v.total / 2 + 1 + w.total / 2 + 1
  {
    EventsKeep(s, events);
    var e := EventExec(s, events);
    assert forall x <- v.voters :: Vote(x, v.term, v.node) in e.cast;
    assert forall x <- w.voters :: Vote(x, w.term, w.node) in e.cast;
    assert v.voters * w.voters <= Doubled(events);
    assert |s.nodes.Keys| == |s.nodes|;
    Overlap(s.nodes.Keys, v.voters, w.voters);
    SubsetSize(v.voters * w.voters, Doubled(events));
  }

  /** A node that stands in a term votes for nobody else in it, not even if it grants
      twice in others. */
  ghost predicate OwnVotes(s: Cluster) {
    && (forall v <- s.cast :: v.voter in s.nodes && v.term <= s.nodes[v.voter].term)
    && (forall v <- s.cast :: v.candidate == v.voter && v.term == s.nodes[v.voter].term ==>
          s.nodes[v.voter].votedFor == Some(v.voter))
    && (forall v, w :: v in s.cast && w in s.cast && v.voter == w.voter && v.term == w.term && v.candidate == v.voter
          ==> w == v)
    && (forall m <- s.sent :: m.Request? ==> Vote(m.candidate, m.term, m.candidate) in s.cast)
    && (forall w <- s.wins :: w.node in s.nodes)
  }

  lemma DoKeepsOwnVotes(s: Cluster, ev: Event)
    requires OwnVotes(s) && Can(s, ev)
    ensures OwnVotes(Do(s, ev))
  {
    match ev
    case Double(to, term, a, b) => DoubleKeepsOwnVotes(s, to, term, a, b);
    case Plain(Start(n, total)) => StartKeepsOwnVotes(s, n, total);
    case Plain(DeliverRequest(m, to)) => RequestKeepsOwnVotes(s, m, to);
    case Plain(DeliverGrant(m)) =>
      ChangeKeepsOwnVotes(s, m.candidate, RecordVote(s.nodes[m.candidate], m.term, m.voter));
    case Plain(DeliverResult(m, to)) =>
      ChangeKeepsOwnVotes(s, to, ProcessResult(to, s.nodes[to], m.term, m.elected));
    case Plain(ClaimAlone(n)) => ChangeKeepsOwnVotes(s, n, s.nodes[n].(role := Main));
    case Plain(Tally(n)) =>
      ChangeKeepsOwnVotes(s, n, s.nodes[n].(role := Main));
      ChangeKeepsOwnVotes(s, n, s.nodes[n].(role := Worker));
  }

  lemma ChangeKeepsOwnVotes(s: Cluster, n: NodeId, v: NodeState)
    requires OwnVotes(s) && n in s.nodes
    requires v.term > s.nodes[n].term || (v.term == s.nodes[n].term && v.votedFor == s.nodes[n].votedFor)
    ensures OwnVotes(SetNode(s, n, v))
  {
  }

  lemma StartKeepsOwnVotes(s: Cluster, n: NodeId, total: nat)
    requires OwnVotes(s) && Enabled(s, Start(n, total))
    ensures OwnVotes(OnStart(s, n, total))
  {
  }

  lemma DoubleKeepsOwnVotes(s: Cluster, to: NodeId, term: nat, a: NodeId, b: NodeId)
    requires OwnVotes(s) && Can(s, Double(to, term, a, b))
    ensures OwnVotes(OnDouble(s, to, term, a, b))
  {
  }

  lemma RequestKeepsOwnVotes(s: Cluster, m: Message, to: NodeId)
    requires OwnVotes(s) && Enabled(s, DeliverRequest(m, to))
    ensures OwnVotes(OnRequest(s, m.term, m.candidate, to))
  {
  }

  lemma {:induction false} EventsKeepOwnVotes(s: Cluster, events: seq<Event>)
    requires Init(s) && EventRun(s, events)
    ensures OwnVotes(EventExec(s, events))
    decreases |events|
  {
    if events != [] {
      EventsKeepOwnVotes(s, events[..|events| - 1]);
      DoKeepsOwnVotes(EventExec(s, events[..|events| - 1]), events[|events| - 1]);
    }
  }

  /** So of two winners each did without the other. */
  lemma WinnersDoWithout(s: Cluster, events: seq<Event>, v: Win, w: Win)
    requires Init(s) && EventRun(s, events)
    requires v in EventExec(s, events).wins && w in EventExec(s, events).wins && v.term == w.term && v.node != w.node
    ensures v.total / 2 + 1 < |s.nodes| || w.total / 2 + 1 < |s.nodes|
  {
    EventsKeep(s, events);
    EventsKeepOwnVotes(s, events);
    var e := EventExec(s, events);
    assert forall x <- v.voters :: Vote(x, v.term, v.node) in e.cast;
    assert forall x <- w.voters :: Vote(x, w.term, w.node) in e.cast;
    assert |s.nodes.Keys| == |s.nodes|;
    assert v.node !in v.voters || v.node !in w.voters;
    if v.node !in v.voters {
      Lacking(s.nodes.Keys, v.voters, v.node);
    } else {
      Lacking(s.nodes.Keys, w.voters, v.node);
    }
  }

  lemma Lacking(whole: set<NodeId>, part: set<NodeId>, x: NodeId)
    requires part <= whole && x !in part && x in whole
    ensures |part| < |whole|
  {
    SubsetSize(part + {x}, whole);
  }

  lemma {:induction false} CountsKept(s: Cluster, events: seq<Event>, total: nat)
    requires Init(s) && EventRun(s, events) && AllCountsAre(events, total)
    ensures forall n <- EventExec(s, events).ballots :: EventExec(s, events).ballots[n].total == total
    ensures forall w <- EventExec(s, events).wins :: w.total == total
    decreases |events|
  {
    if events != [] {
      var before, ev := events[..|events| - 1], events[|events| - 1];
      assert ev in events;
      CountsKept(s, before, total);
      if ev.Plain? {
        StepUsesTheCount(EventExec(s, before), ev.step, total);
      }
    }
  }

  /** While nobody stands nobody asks, so nobody grants. */
  lemma {:induction false} MainsNeverDouble(s: Cluster, events: seq<Event>)
    requires Init(s) && AllMain(s) && EventRun(s, events)
    ensures var e := EventExec(s, events); AllMain(e) && e.ballots == map[] && e.sent == {} && e.wins == {}
    decreases |events|
  {
    if events != [] {
      MainsNeverDouble(s, events[..|events| - 1]);
    }
  }

  // ---------------------------------------------------------------------------
  // And that as many are enough
  // ---------------------------------------------------------------------------

  /** The events lead from `s` to `t`, with the count `total` and double grants by `d`. */
  ghost predicate Leads(s: Cluster, events: seq<Event>, t: Cluster, d: set<NodeId>, total: nat) {
    EventRun(s, events) && EventExec(s, events) == t && Doubled(events) == d && AllCountsAre(events, total)
  }

  lemma Then(s: Cluster, events: seq<Event>, t: Cluster, d: set<NodeId>, total: nat, ev: Event)
    returns (more: seq<Event>)
    requires Leads(s, events, t, d, total) && Can(t, ev) && CountIs(ev, total)
    ensures Leads(s, more, Do(t, ev), d + DoubledBy(ev), total)
  {
    more := events + [ev];
    assert more[..|more| - 1] == events;
  }

  lemma {:induction false} AsEvents(s: Cluster, steps: seq<Step>, total: nat) returns (events: seq<Event>)
    requires ValidRun(s, steps) && CountsAre(steps, total)
    ensures Leads(s, events, Exec(s, steps), {}, total)
    decreases |steps|
  {
    if steps == [] {
      events := [];
    } else {
      var before := steps[..|steps| - 1];
      assert forall k :: 0 <= k < |before| ==> before[k] == steps[k];
      events := AsEvents(s, before, total);
      events := Then(s, events, Exec(s, before), {}, total, Plain(steps[|steps| - 1]));
      assert {} + DoubledBy(Plain(steps[|steps| - 1])) == {};
    }
  }

  /** All of `d` granted both, and nothing else happened. */
  ghost predicate Granted(t: Cluster, t': Cluster, term: nat, a: NodeId, b: NodeId, d: set<NodeId>) {
    && t'.nodes.Keys == t.nodes.Keys && t'.ballots == t.ballots && t'.wins == t.wins && t.sent <= t'.sent
    && (forall c <- d :: Grant(term, a, c) in t'.sent && Grant(term, b, c) in t'.sent)
    && (forall n <- t.nodes :: n !in d ==> t'.nodes[n] == t.nodes[n])
  }

  ghost predicate CanDouble(t: Cluster, term: nat, a: NodeId, b: NodeId, d: set<NodeId>) {
    && a != b && a !in d && b !in d && Request(term, a) in t.sent && Request(term, b) in t.sent
    && forall c <- d :: c in t.nodes && t.nodes[c].term < term
  }

  lemma GrantedOne(t: Cluster, term: nat, a: NodeId, b: NodeId, d: set<NodeId>, c: NodeId)
    requires CanDouble(t, term, a, b, d) && c in d
    ensures Can(t, Double(c, term, a, b))
    ensures var u := OnDouble(t, c, term, a, b); Granted(t, u, term, a, b, {c}) && CanDouble(u, term, a, b, d - {c})
  {
  }

  lemma GrantedMore(t: Cluster, u: Cluster, t': Cluster, term: nat, a: NodeId, b: NodeId, d: set<NodeId>, c: NodeId)
    requires Granted(t, u, term, a, b, {c}) && Granted(u, t', term, a, b, d - {c}) && c in d
    ensures Granted(t, t', term, a, b, d)
  {
  }

  lemma {:induction false} DoubleAll(s: Cluster, events: seq<Event>, t: Cluster, done: set<NodeId>, total: nat,
                                     term: nat, a: NodeId, b: NodeId, d: set<NodeId>)
    returns (more: seq<Event>, t': Cluster)
    requires Leads(s, events, t, done, total) && CanDouble(t, term, a, b, d)
    ensures Leads(s, more, t', done + d, total) && Granted(t, t', term, a, b, d)
    decreases d
  {
    if d == {} {
      more, t' := events, t;
      assert done + d == done;
    } else {
      var c :| c in d;
      GrantedOne(t, term, a, b, d, c);
      var u := OnDouble(t, c, term, a, b);
      more := Then(s, events, t, done, total, Double(c, term, a, b));
      more, t' := DoubleAll(s, more, u, done + {c}, total, term, a, b, d - {c});
      GrantedMore(t, u, t', term, a, b, d, c);
      assert done + {c} + (d - {c}) == done + d;
    }
  }

  /** `c` counted the votes of `voters`, and nothing else happened. */
  ghost predicate Counted(t: Cluster, t': Cluster, c: NodeId, term: nat, voters: set<NodeId>) {
    && t'.nodes.Keys == t.nodes.Keys && c in t.nodes
    && t'.ballots == t.ballots && t'.wins == t.wins && t'.sent == t.sent
    && (forall n <- t.nodes :: n != c ==> t'.nodes[n] == t.nodes[n])
    && t'.nodes[c].term == t.nodes[c].term && VotesIn(t'.nodes[c], term) == VotesIn(t.nodes[c], term) + voters
  }

  ghost predicate CanCount(t: Cluster, c: NodeId, term: nat, voters: set<NodeId>) {
    c in t.nodes && t.nodes[c].term <= term && forall v <- voters :: Grant(term, c, v) in t.sent
  }

  lemma {:induction false} CountAll(s: Cluster, events: seq<Event>, t: Cluster, d: set<NodeId>, total: nat,
                                    c: NodeId, term: nat, voters: set<NodeId>)
    returns (more: seq<Event>, t': Cluster)
    requires Leads(s, events, t, d, total) && CanCount(t, c, term, voters)
    ensures Leads(s, more, t', d, total) && Counted(t, t', c, term, voters)
    decreases voters
  {
    if voters == {} {
      more, t' := events, t;
      assert VotesIn(t.nodes[c], term) + {} == VotesIn(t.nodes[c], term);
    } else {
      var v :| v in voters;
      var ev := Plain(DeliverGrant(Grant(term, c, v)));
      more := Then(s, events, t, d, total, ev);
      assert d + DoubledBy(ev) == d;
      more, t' := CountAll(s, more, Do(t, ev), d, total, c, term, voters - {v});
      assert VotesIn(t.nodes[c], term) + {v} + (voters - {v}) == VotesIn(t.nodes[c], term) + voters;
    }
  }

  lemma WinNow(s: Cluster, events: seq<Event>, t: Cluster, d: set<NodeId>, total: nat, n: NodeId)
    returns (more: seq<Event>, t': Cluster)
    requires Leads(s, events, t, d, total) && n in t.nodes && n in t.ballots
    requires t.ballots[n].total == total && IsMajority(|VotesIn(t.nodes[n], t.ballots[n].term)|, total)
    ensures Leads(s, more, t', d, total) && Tallied(t, t', n, total)
  {
    more := Then(s, events, t, d, total, Plain(Tally(n)));
    t' := OnTally(t, n);
    assert d + DoubledBy(Plain(Tally(n))) == d;
  }

  /** `a` and `b` stand for term 2 with the votes of `left` and `right`, and all of
      `d` are behind. */
  ghost predicate Poised(g: Cluster, a: NodeId, b: NodeId, left: set<NodeId>, right: set<NodeId>, d: set<NodeId>,
                         total: nat) {
    && a in g.nodes && b in g.nodes && g.nodes[a].term == g.nodes[b].term == 2
    && g.ballots == map[a := Ballot(2, total), b := Ballot(2, total)] && CanDouble(g, 2, a, b, d)
    && VotesIn(g.nodes[a], 2) == left && VotesIn(g.nodes[b], 2) == right
  }

  lemma PoisedIs(e: Cluster, f: Cluster, g: Cluster, x: NodeId, a: NodeId, b: NodeId,
                 left: set<NodeId>, right: set<NodeId>, d: set<NodeId>, total: nat)
    requires AfterFirst(e, x) && left !! right && d !! left && d !! right && d <= e.nodes.Keys
    requires Opened(e, f, a, 2, left, total) && Opened(f, g, b, 2, right, total)
    ensures Poised(g, a, b, left, right, d, total)
  {
    BothOpened(e, f, g, a, b, left, right, total);
  }

  /** Ordinary elections get there. */
  lemma GetPoised(s: Cluster, steps: seq<Step>, x: NodeId, a: NodeId, b: NodeId,
                  left: set<NodeId>, right: set<NodeId>, d: set<NodeId>, total: nat) returns (more: seq<Step>)
    requires ValidRun(s, steps) && Elections(steps, total) && AfterFirst(Exec(s, steps), x) && total >= 2
    requires a in left && b in right && left !! right && a != x && b != x
    requires d !! left && d !! right && d + left + right <= Exec(s, steps).nodes.Keys
    ensures ValidRun(s, more) && Elections(more, total) && Poised(Exec(s, more), a, b, left, right, d, total)
  {
    var e := Exec(s, steps);
    BothCanOpen(e, e, x, a, b, left, right, total);
    var viaA := OpenBallot(s, steps, a, 1, left, total);
    BothCanOpen(e, Exec(s, viaA), x, a, b, left, right, total);
    more := OpenBallot(s, viaA, b, 1, right, total);
    PoisedIs(e, Exec(s, viaA), Exec(s, more), x, a, b, left, right, d, total);
  }

  lemma CanCountBoth(g: Cluster, h: Cluster, i: Cluster, a: NodeId, b: NodeId,
                     left: set<NodeId>, right: set<NodeId>, d: set<NodeId>, total: nat)
    requires Poised(g, a, b, left, right, d, total) && Granted(g, h, 2, a, b, d)
    ensures CanCount(h, a, 2, d) && (Counted(h, i, a, 2, d) ==> CanCount(i, b, 2, d))
  {
  }

  /** Two candidates whose ballots are complete. */
  ghost predicate Complete(j: Cluster, a: NodeId, b: NodeId, forA: set<NodeId>, forB: set<NodeId>, total: nat) {
    && a != b && a in j.nodes && b in j.nodes && j.ballots == map[a := Ballot(2, total), b := Ballot(2, total)]
    && VotesIn(j.nodes[a], 2) == forA && VotesIn(j.nodes[b], 2) == forB
  }

  lemma CompleteIs(g: Cluster, h: Cluster, i: Cluster, j: Cluster, a: NodeId, b: NodeId,
                   left: set<NodeId>, right: set<NodeId>, d: set<NodeId>, total: nat)
    requires Poised(g, a, b, left, right, d, total) && Granted(g, h, 2, a, b, d)
    requires Counted(h, i, a, 2, d) && Counted(i, j, b, 2, d)
    ensures Complete(j, a, b, left + d, right + d, total)
  {
  }

  /** The double grants of `d` complete both. */
  lemma CompleteBoth(s: Cluster, events: seq<Event>, g: Cluster, a: NodeId, b: NodeId,
                     left: set<NodeId>, right: set<NodeId>, d: set<NodeId>, total: nat)
    returns (more: seq<Event>, j: Cluster)
    requires Leads(s, events, g, {}, total) && Poised(g, a, b, left, right, d, total)
    ensures Leads(s, more, j, d, total) && Complete(j, a, b, left + d, right + d, total)
  {
    var h, i;
    more, h := DoubleAll(s, events, g, {}, total, 2, a, b, d);
    assert {} + d == d;
    CanCountBoth(g, h, h, a, b, left, right, d, total);
    more, i := CountAll(s, more, h, d, total, a, 2, d);
    CanCountBoth(g, h, i, a, b, left, right, d, total);
    more, j := CountAll(s, more, i, d, total, b, 2, d);
    CompleteIs(g, h, i, j, a, b, left, right, d, total);
  }

  lemma BothWin(s: Cluster, events: seq<Event>, j: Cluster, a: NodeId, b: NodeId,
                forA: set<NodeId>, forB: set<NodeId>, d: set<NodeId>, total: nat) returns (more: seq<Event>, t: Cluster)
    requires Leads(s, events, j, d, total) && Complete(j, a, b, forA, forB, total)
    requires IsMajority(|forA|, total) && IsMajority(|forB|, total)
    ensures Leads(s, more, t, d, total) && !OneWinnerPerTerm(t)
  {
    var k;
    more, k := WinNow(s, events, j, d, total, a);
    more, t := WinNow(s, more, k, d, total, b);
    assert Win(2, a, forA, total) in t.wins && Win(2, b, forB, total) in t.wins;
  }

  /** Voters for two candidates that overlap in no more than they have to. */
  lemma OverlappingQuorums(whole: set<NodeId>, a: NodeId, b: NodeId, q: nat, n: nat)
    returns (left: set<NodeId>, right: set<NodeId>, d: set<NodeId>)
    requires a in whole && b in whole && a != b && n < q && 2 * q <= |whole| + n
    ensures a in left && b in right && left !! right && d !! left && d !! right && d + left + right <= whole
    ensures |d| == n && |left + d| == |right + d| == q
  {
    var rest := whole - {a, b};
    assert |rest| == |whole| - 2 by { assert whole == rest + {a, b}; }
    var l, r;
    d, l, r := ThreeSets(rest, n, q - n - 1);
    left, right := l + {a}, r + {b};
    WithOneMore(l, a, d);
    WithOneMore(r, b, d);
  }

  lemma WithOneMore(l: set<NodeId>, a: NodeId, d: set<NodeId>)
    requires l !! d && a !in l && a !in d
    ensures (l + {a}) !! d && |l + {a} + d| == |l| + 1 + |d|
  {
    assert |l + {a}| == |l| + 1;
  }

  lemma ThreeSets(whole: set<NodeId>, n: nat, m: nat) returns (d: set<NodeId>, l: set<NodeId>, r: set<NodeId>)
    requires n + 2 * m <= |whole|
    ensures d <= whole && l <= whole && r <= whole && d !! l && d !! r && l !! r && |d| == n && |l| == |r| == m
  {
    d := SubsetOfSize(whole, n);
    assert |whole - d| == |whole| - n;
    l, r := DisjointQuorums(whole - d, m);
  }

  lemma Splits(s: Cluster, total: nat, n: nat) returns (events: seq<Event>)
    requires Init(s) && total >= 2 && !AllMain(s)
    requires n < total / 2 + 1 < |s.nodes| && 2 * (total / 2 + 1) <= |s.nodes| + n
    ensures EventRun(s, events) && AllCountsAre(events, total) && |Doubled(events)| == n
    ensures !OneWinnerPerTerm(EventExec(s, events))
  {
    var x :| x in s.nodes && s.nodes[x].role != Main;
    assert |s.nodes.Keys| == |s.nodes| && |s.nodes.Keys - {x}| == |s.nodes| - 1;
    var a := OtherMember(s.nodes.Keys, x);
    var b := OtherMember(s.nodes.Keys - {x}, a);
    var quorum := QuorumWith(s.nodes.Keys, x, a, total / 2 + 1);
    var left, right, d := OverlappingQuorums(s.nodes.Keys, a, b, total / 2 + 1, n);
    var first := FirstElection(s, x, quorum, total);
    var poised := GetPoised(s, first, x, a, b, left, right, d, total);
    events := AsEvents(s, poised, total);
    var t;
    events, t := CompleteBoth(s, events, Exec(s, poised), a, b, left, right, d, total);
    events, t := BothWin(s, events, t, a, b, left + d, right + d, d, total);
  }

  /** Some run with the count `total`, in which at most `n` nodes grant twice,
      elects two nodes in one term. */
  ghost predicate CanSplit(s: Cluster, total: nat, n: nat) {
    exists events :: EventRun(s, events) && AllCountsAre(events, total) && |Doubled(events)| <= n
      && !OneWinnerPerTerm(EventExec(s, events))
  }

  /**
   How many double grants election safety can take, exactly: with the count
   `total`, two nodes can win one term if and only if somebody can stand for
   election, a majority of the count does not take everybody, and as many nodes grant
   twice as two majorities of the count exceed the cluster.
   */
  lemma DoublesNeeded(s: Cluster, total: nat, n: nat)
    requires Init(s) && total >= 2
    ensures CanSplit(s, total, n) <==>
      !AllMain(s) && total / 2 + 1 < |s.nodes| && 2 * (total / 2 + 1) <= |s.nodes| + n
  {
    if !AllMain(s) && total / 2 + 1 < |s.nodes| && 2 * (total / 2 + 1) <= |s.nodes| + n {
      var least := if Covers(total, |s.nodes|) then 2 * (total / 2 + 1) - |s.nodes| else 0;
      var events := Splits(s, total, least);
    } else {
      forall events | EventRun(s, events) && AllCountsAre(events, total) && |Doubled(events)| <= n
        ensures OneWinnerPerTerm(EventExec(s, events))
      {
        NoSplit(s, events, total, n);
      }
    }
  }

  lemma NoSplit(s: Cluster, events: seq<Event>, total: nat, n: nat)
    requires Init(s) && EventRun(s, events) && AllCountsAre(events, total) && |Doubled(events)| <= n
    requires AllMain(s) || total / 2 + 1 >= |s.nodes| || 2 * (total / 2 + 1) > |s.nodes| + n
    ensures OneWinnerPerTerm(EventExec(s, events))
  {
    if AllMain(s) {
      MainsNeverDouble(s, events);
    } else {
      CountsKept(s, events, total);
      var e := EventExec(s, events);
      forall v, w | v in e.wins && w in e.wins && v.term == w.term ensures v.node == w.node {
        if v.node != w.node {
          SharedVotersDoubled(s, events, v, w);
          WinnersDoWithout(s, events, v, w);
        }
      }
    }
  }

  /** With every count the true one: in a cluster of an odd size one node that grants
      twice is enough, in one of an even size it takes two. */
  lemma DoubleGrantElectsTwo(s: Cluster)
    requires Init(s) && |s.nodes| >= 3 && !AllMain(s)
    ensures !CanSplit(s, |s.nodes|, 0) && CanSplit(s, |s.nodes|, 2)
    ensures CanSplit(s, |s.nodes|, 1) <==> |s.nodes| % 2 == 1
  {
    DoublesNeeded(s, |s.nodes|, 0);
    DoublesNeeded(s, |s.nodes|, 1);
    DoublesNeeded(s, |s.nodes|, 2);
  }
}
