/**
 Runs of rule synchronisation (waf-cluster/src/sync/rules.rs): the main node
 records changes, the worker asks, and requests and responses are delayed,
 repeated, reordered or lost.  A response may also fail half-way, at a rule the
 worker cannot read.
 */
module RuleRuns {
  import opened Basics
  import opened RuleIndex
  import opened RuleSync

  /** A response together with the version it was requested for. */
  datatype Msg = Msg(base: nat, resp: Response)

  datatype Sys = Sys(hist: seq<Change>, log: Log, worker: Replica, asked: set<nat>, wire: set<Msg>)

  /** `Fail(m, k)`: the first `k` changes of `m` are applied, the next cannot be
      read.  A snapshot that cannot be read changes nothing. */
  datatype Step =
    | Record(c: Change)
    | Ask
    | Answer(from: nat, list: seq<Rule>)
    | Deliver(m: Msg)
    | Fail(m: Msg, k: nat)

  ghost predicate Enabled(start: Rules, s: Sys, step: Step) {
    match step
    case Record(_) => true
    case Ask => true
    case Answer(from, list) => from in s.asked && Lists(list, Replay(start, s.hist))
    case Deliver(m) => m in s.wire
    case Fail(m, k) => m in s.wire && m.resp.Incremental? && k < |m.resp.changes|
  }

  /** What is left of a worker when a response fails after `done`. */
  function Failed(w: Replica, done: seq<Change>): Replica {
    Replica(Replay(w.rules, done), w.version + Bumps(w.rules, done))
  }

  function Next(start: Rules, maxRetained: nat, s: Sys, step: Step): Sys
    requires Enabled(start, s, step)
  {
    match step
    case Record(c) => s.(hist := s.hist + [c], log := Pushed(s.log, maxRetained, |s.hist| + 1, c))
    case Ask => s.(asked := s.asked + {s.worker.version})
    case Answer(from, list) => s.(wire := s.wire + {Msg(from, HandleSyncRequest(s.log, |s.hist|, from, list))})
    case Deliver(m) => s.(worker := Synced(s.worker, m.resp))
    case Fail(m, k) => s.(worker := Failed(s.worker, m.resp.changes[..k]))
  }

  /** Whatever the worker can read, applying a response is one of these steps or
      changes nothing. */
  lemma AttemptIsStep(start: Rules, maxRetained: nat, s: Sys, m: Msg, readable: Reader)
    requires m in s.wire
    ensures var w := Attempted(s.worker, m.resp, readable).0;
      || w == s.worker
      || w == Next(start, maxRetained, s, Deliver(m)).worker
      || exists k: nat :: Enabled(start, s, Fail(m, k)) && w == Next(start, maxRetained, s, Fail(m, k)).worker
  {
    if m.resp.Incremental? && ReadablePrefix(readable, m.resp.changes) < |m.resp.changes| {
      var k := ReadablePrefix(readable, m.resp.changes);
      assert Enabled(start, s, Fail(m, k));
    }
  }

  ghost predicate Run(start: Rules, maxRetained: nat, s: Sys, steps: seq<Step>)
    decreases |steps|, 0
  {
    steps != [] ==>
      && Run(start, maxRetained, s, steps[..|steps| - 1])
      && Enabled(start, After(start, maxRetained, s, steps[..|steps| - 1]), steps[|steps| - 1])
  }

  ghost function After(start: Rules, maxRetained: nat, s: Sys, steps: seq<Step>): Sys
    requires Run(start, maxRetained, s, steps)
    decreases |steps|, 1
  {
    if steps == [] then s
    else Next(start, maxRetained, After(start, maxRetained, s, steps[..|steps| - 1]), steps[|steps| - 1])
  }

  // ---------------------------------------------------------------------------
  // What holds as long as the worker is well
  // ---------------------------------------------------------------------------

  /** A worker that has not synced yet, once there is something to sync. */
  predicate Joining(hist: seq<Change>, w: Replica) {
    w.version == 0 && hist != []
  }

  /** The next round trip will get the worker to the main node's rules. */
  ghost predicate Well(start: Rules, s: Sys) {
    CanCatchUp(start, s.hist, s.worker) || Joining(s.hist, s.worker)
  }

  ghost predicate GoodMsg(start: Rules, hist: seq<Change>, m: Msg) {
    && m.resp.version <= |hist|
    && match m.resp
       case Incremental(v, changes) => m.base <= v && changes == hist[m.base..v] && (m.base == 0 ==> v == 0)
       case Full(v, list) => v > 0 && Lists(list, RulesAt(start, hist, v))
  }

  /** Changes from version 0 on are only ever sent while there are none. */
  ghost predicate Sound(start: Rules, maxRetained: nat, s: Sys) {
    && LogOf(s.log, maxRetained, |s.hist|, s.hist)
    && (forall v <- s.asked :: v <= |s.hist|)
    && (forall m <- s.wire :: GoodMsg(start, s.hist, m))
  }

  lemma GoodMsgKept(start: Rules, hist: seq<Change>, c: Change, m: Msg)
    requires GoodMsg(start, hist, m)
    ensures GoodMsg(start, hist + [c], m)
  {
    if m.resp.Incremental? {
      assert (hist + [c])[m.base..m.resp.version] == hist[m.base..m.resp.version];
    } else {
      assert (hist + [c])[..m.resp.version] == hist[..m.resp.version];
    }
  }

  lemma AnswerIsGood(start: Rules, maxRetained: nat, s: Sys, from: nat, list: seq<Rule>)
    requires Sound(start, maxRetained, s) && Enabled(start, s, Answer(from, list))
    ensures GoodMsg(start, s.hist, Msg(from, HandleSyncRequest(s.log, |s.hist|, from, list)))
  {
    DeltaIsMissingChanges(s.log, maxRetained, s.hist, from);
    assert s.hist[..|s.hist|] == s.hist;
    assert from <= |s.hist| ==> s.hist[from..|s.hist|] == s.hist[from..];
  }

  lemma StepKeepsSound(start: Rules, maxRetained: nat, s: Sys, step: Step)
    requires Sound(start, maxRetained, s) && Well(start, s) && Enabled(start, s, step)
    ensures Sound(start, maxRetained, Next(start, maxRetained, s, step))
  {
    match step {
      case Record(c) =>
        PushKeepsLog(s.log, maxRetained, s.hist, c);
        forall m <- s.wire ensures GoodMsg(start, s.hist + [c], m) {
          GoodMsgKept(start, s.hist, c, m);
        }
      case Answer(from, list) => AnswerIsGood(start, maxRetained, s, from, list);
      case _ =>
    }
  }

  // ---------------------------------------------------------------------------
  // Which deliveries do no harm
  // ---------------------------------------------------------------------------

  /** Of the responses only changes can do harm: if the worker is not where it
      would have to be for them.  Those that fail half-way also depend on the version
      that they raise the worker's own to. */
  ghost predicate Safe(start: Rules, s: Sys, step: Step)
    requires Enabled(start, s, step)
  {
    match step
    case Deliver(m) => m.resp.Incremental? && 0 < m.base <= |s.hist| ==> Harmless(start, s.hist, s.worker.rules, m.base)
    case Fail(m, k) =>
      m.base + k <= |s.hist| && m.resp.changes[..k] == s.hist[m.base..m.base + k] ==>
        SafePart(start, s.hist, s.worker, m.base, k)
    case _ => true
  }

  /** `k` changes from `base` on, each of which may raise the version. */
  ghost predicate SafePart(start: Rules, hist: seq<Change>, w: Replica, base: nat, k: nat)
    requires base + k <= |hist|
  {
    var at := w.version + Bumps(w.rules, hist[base..base + k]);
    at == 0 || (at <= |hist| && PartHarmless(start, hist, w.rules, base, k, at))
  }

  lemma DeliverWell(start: Rules, maxRetained: nat, s: Sys, m: Msg)
    requires Sound(start, maxRetained, s) && Well(start, s) && m in s.wire
    ensures Well(start, Next(start, maxRetained, s, Deliver(m))) <==> Safe(start, s, Deliver(m))
  {
    assert GoodMsg(start, s.hist, m);
    match m.resp {
      case Full(v, list) =>
        LoadedListing(list, RulesAt(start, s.hist, v));
        ReplaySplit(start, s.hist, v);
      case Incremental(v, changes) =>
        if m.base == 0 {
          assert changes == [];
        } else {
          DeltaIffHarmless(start, s.hist, s.worker, m.base, v);
        }
    }
  }

  lemma PartWell(start: Rules, hist: seq<Change>, w: Replica, base: nat, k: nat)
    requires hist != [] && base + k <= |hist|
    ensures var w' := Failed(w, hist[base..base + k]);
      CanCatchUp(start, hist, w') || Joining(hist, w') <==> SafePart(start, hist, w, base, k)
  {
    var at := w.version + Bumps(w.rules, hist[base..base + k]);
    if at <= |hist| {
      PartIffHarmless(start, hist, w.rules, base, k, at);
    }
  }

  lemma FailWell(start: Rules, maxRetained: nat, s: Sys, m: Msg, k: nat)
    requires Sound(start, maxRetained, s) && Enabled(start, s, Fail(m, k))
    ensures Well(start, Next(start, maxRetained, s, Fail(m, k))) <==> Safe(start, s, Fail(m, k))
  {
    assert GoodMsg(start, s.hist, m);
    assert m.resp.changes[..k] == s.hist[m.base..m.base + k];
    PartWell(start, s.hist, s.worker, m.base, k);
  }

  lemma StepWell(start: Rules, maxRetained: nat, s: Sys, step: Step)
    requires Sound(start, maxRetained, s) && Well(start, s) && Enabled(start, s, step)
    ensures Well(start, Next(start, maxRetained, s, step)) <==> Safe(start, s, step)
  {
    match step {
      case Record(c) =>
        if CanCatchUp(start, s.hist, s.worker) {
          CatchUpKept(start, s.hist, c, s.worker);
        }
      case Ask =>
      case Answer(from, list) =>
      case Deliver(m) => DeliverWell(start, maxRetained, s, m);
      case Fail(m, k) => FailWell(start, maxRetained, s, m, k);
    }
  }

  // ---------------------------------------------------------------------------
  // Runs
  // ---------------------------------------------------------------------------

  /** The main node after `hist`, and a worker that holds the rules of the start,
      or any rules at all at version 0 once a change was recorded. */
  ghost predicate Init(start: Rules, maxRetained: nat, s: Sys) {
    && LogOf(s.log, maxRetained, |s.hist|, s.hist) && s.asked == {} && s.wire == {}
    && s.worker.version == 0 && (s.worker.rules == start || s.hist != [])
  }

  /** The worker is well in every state of the run. */
  ghost predicate AlwaysWell(start: Rules, maxRetained: nat, s: Sys, steps: seq<Step>)
    requires Run(start, maxRetained, s, steps)
    decreases |steps|
  {
    Well(start, After(start, maxRetained, s, steps)) &&
    (steps != [] ==> AlwaysWell(start, maxRetained, s, steps[..|steps| - 1]))
  }

  /** Every step of the run is safe in the state it is made in. */
  ghost predicate AllSafe(start: Rules, maxRetained: nat, s: Sys, steps: seq<Step>)
    requires Run(start, maxRetained, s, steps)
    decreases |steps|
  {
    steps != [] ==>
      && AllSafe(start, maxRetained, s, steps[..|steps| - 1])
      && Safe(start, After(start, maxRetained, s, steps[..|steps| - 1]), steps[|steps| - 1])
  }

  lemma {:induction false} WellRunsAreSound(start: Rules, maxRetained: nat, s: Sys, steps: seq<Step>)
    requires Init(start, maxRetained, s) && Run(start, maxRetained, s, steps)
    requires AlwaysWell(start, maxRetained, s, steps)
    ensures Sound(start, maxRetained, After(start, maxRetained, s, steps))
    decreases |steps|
  {
    if steps != [] {
      var before := steps[..|steps| - 1];
      WellRunsAreSound(start, maxRetained, s, before);
      StepKeepsSound(start, maxRetained, After(start, maxRetained, s, before), steps[|steps| - 1]);
    }
  }

  /**
   Exactly which runs keep a worker well, however messages are delayed, repeated,
   reordered, lost or fail half-way: those in which all changes that arrive are
   harmless in the state they arrive in.
   */
  lemma {:induction false} WellIffSafe(start: Rules, maxRetained: nat, s: Sys, steps: seq<Step>)
    requires Init(start, maxRetained, s) && Run(start, maxRetained, s, steps)
    ensures AlwaysWell(start, maxRetained, s, steps) <==> AllSafe(start, maxRetained, s, steps)
    decreases |steps|
  {
    if steps == [] {
      assert s.hist == [] ==> s.hist[0..] == [];
    } else {
      var before := steps[..|steps| - 1];
      WellIffSafe(start, maxRetained, s, before);
      if AlwaysWell(start, maxRetained, s, before) {
        WellRunsAreSound(start, maxRetained, s, before);
        StepWell(start, maxRetained, After(start, maxRetained, s, before), steps[|steps| - 1]);
      }
    }
  }

  /** In those runs a worker that reports the main node's version has its rules, and
      from any point on one undisturbed round trip gets it there. */
  lemma WorkersConverge(start: Rules, maxRetained: nat, s: Sys, steps: seq<Step>, list: seq<Rule>)
    requires Init(start, maxRetained, s) && Run(start, maxRetained, s, steps) && AllSafe(start, maxRetained, s, steps)
    requires Lists(list, Replay(start, After(start, maxRetained, s, steps).hist))
    ensures var t := After(start, maxRetained, s, steps);
      && (t.worker.version == |t.hist| ==> t.worker.rules == Replay(start, t.hist))
      && Synced(t.worker, HandleSyncRequest(t.log, |t.hist|, t.worker.version, list))
           == Replica(Replay(start, t.hist), |t.hist|)
  {
    WellIffSafe(start, maxRetained, s, steps);
    WellRunsAreSound(start, maxRetained, s, steps);
    var t := After(start, maxRetained, s, steps);
    if CanCatchUp(start, t.hist, t.worker) {
      RoundTripConverges(start, t.hist, t.log, maxRetained, list, t.worker);
    } else {
      DeltaIsMissingChanges(t.log, maxRetained, t.hist, 0);
      LoadedListing(list, Replay(start, t.hist));
    }
  }

  // ---------------------------------------------------------------------------
  // A rule the worker itself could follow
  // ---------------------------------------------------------------------------

  /** Changes are applied only by a worker that is not behind the version they
      were asked for, and those that fail half-way only met one that was there. */
  predicate InOrder(s: Sys, step: Step) {
    match step
    case Deliver(m) => m.resp.Incremental? ==> m.base <= s.worker.version
    case Fail(m, k) => m.base == s.worker.version || k == 0
    case _ => true
  }

  ghost predicate Ordered(start: Rules, maxRetained: nat, s: Sys, steps: seq<Step>)
    requires Run(start, maxRetained, s, steps)
    decreases |steps|
  {
    steps != [] ==>
      && Ordered(start, maxRetained, s, steps[..|steps| - 1])
      && InOrder(After(start, maxRetained, s, steps[..|steps| - 1]), steps[|steps| - 1])
  }

  lemma FailInOrder(start: Rules, maxRetained: nat, s: Sys, m: Msg, k: nat)
    requires Sound(start, maxRetained, s) && Well(start, s) && Enabled(start, s, Fail(m, k)) && InOrder(s, Fail(m, k))
    ensures Safe(start, s, Fail(m, k))
  {
    assert GoodMsg(start, s.hist, m);
    PartInOrder(start, s.hist, s.worker, m.base, k);
  }

  lemma PartInOrder(start: Rules, hist: seq<Change>, w: Replica, base: nat, k: nat)
    requires hist != [] && base + k <= |hist| && (base == w.version || k == 0)
    requires CanCatchUp(start, hist, w) || (Joining(hist, w) && k == 0)
    ensures SafePart(start, hist, w, base, k)
  {
    PartWell(start, hist, w, base, k);
    if k == 0 {
      assert hist[base..base + k] == [];
    } else {
      PartCanCatchUp(start, hist, w, k, base + Bumps(w.rules, hist[base..base + k]));
    }
  }

  lemma InOrderIsSafe(start: Rules, maxRetained: nat, s: Sys, step: Step)
    requires Sound(start, maxRetained, s) && Well(start, s) && Enabled(start, s, step) && InOrder(s, step)
    ensures Safe(start, s, step)
  {
    match step {
      case Deliver(m) =>
        if m.resp.Incremental? && 0 < m.base <= |s.hist| {
          EarlierIsHarmless(start, s.hist, s.worker, m.base);
        }
      case Fail(m, k) => FailInOrder(start, maxRetained, s, m, k);
      case _ =>
    }
  }

  /** Runs in order are safe. */
  lemma {:induction false} OrderedRunsAreSafe(start: Rules, maxRetained: nat, s: Sys, steps: seq<Step>)
    requires Init(start, maxRetained, s) && Run(start, maxRetained, s, steps) && Ordered(start, maxRetained, s, steps)
    ensures AllSafe(start, maxRetained, s, steps)
    decreases |steps|
  {
    if steps != [] {
      var before := steps[..|steps| - 1];
      OrderedRunsAreSafe(start, maxRetained, s, before);
      WellIffSafe(start, maxRetained, s, before);
      WellRunsAreSound(start, maxRetained, s, before);
      InOrderIsSafe(start, maxRetained, After(start, maxRetained, s, before), steps[|steps| - 1]);
    }
  }

  /** A rule named by a single letter, and the change that sets it. */
  function Named(c: char): Rule {
    Rule([c], "", "", "")
  }

  function Set(c: char): Change {
    Upsert([c], Some(Named(c)))
  }

  /** A history of `n` changes that set "a" at `v` and "b" otherwise. */
  function OnceA(n: nat, v: nat): (hist: seq<Change>)
    ensures |hist| == n && forall i :: 0 <= i < n ==> hist[i] == if i == v then Set('a') else Set('b')
  {
    seq(n, i => if i == v then Set('a') else Set('b'))
  }

  lemma {:induction false} OnlyB(cs: seq<Change>)
    requires forall i :: 0 <= i < |cs| ==> cs[i] == Set('b')
    ensures !Touched(cs, "a")
    decreases |cs|
  {
    if cs != [] {
      OnlyB(cs[..|cs| - 1]);
    }
  }

  lemma {:induction false} EverySetBumps(rules: Rules, cs: seq<Change>)
    requires forall i :: 0 <= i < |cs| ==> cs[i].Upsert? && cs[i].rule.Some?
    ensures Bumps(rules, cs) == |cs|
    decreases |cs|
  {
    if cs != [] {
      EverySetBumps(rules, cs[..|cs| - 1]);
    }
  }

  /** The rule "a" is there exactly after its change. */
  lemma LookA(n: nat, v: nat, at: nat)
    requires v < n && at <= n
    ensures Look(RulesAt(map[], OnceA(n, v), at), "a") == if at <= v then None else Some(Named('a'))
  {
    var hist := OnceA(n, v);
    if at <= v {
      OnlyB(hist[..at]);
      ReplayForgets(map[], map[], hist[..at], "a");
    } else {
      var upTo := hist[..v] + [Set('a')];
      ReplaySnoc(map[], hist[..v], Set('a'));
      assert Named('a').id == "a";
      assert hist[..at] == upTo + hist[v + 1..at];
      ReplayConcat(map[], upTo, hist[v + 1..at]);
      OnlyB(hist[v + 1..at]);
      var mid := Replay(map[], upTo);
      ReplayForgets(mid, mid, hist[v + 1..at], "a");
    }
  }

  /** Keeps any worker at version `v` able to catch up, whatever the history. */
  ghost predicate AlwaysKeeps(v: nat, base: nat, to: nat)
    requires base <= to
  {
    forall start: Rules, hist: seq<Change>, w: Replica ::
      w.version == v && to <= |hist| && CanCatchUp(start, hist, w) ==>
        CanCatchUp(start, hist, Synced(w, Incremental(to, hist[base..to])))
  }

  lemma GapLosesA(v: nat, base: nat, to: nat)
    requires v < base <= to
    ensures var hist := OnceA(to, v);
      var w := Replica(RulesAt(map[], hist, v), v);
      CanCatchUp(map[], hist, w) && !CanCatchUp(map[], hist, Synced(w, Incremental(to, hist[base..to])))
  {
    var hist := OnceA(to, v);
    ReplaySplit(map[], hist, v);
    DeltaAcrossGap(map[], hist, v, base, to);
    LookA(to, v, v);
    LookA(to, v, base);
    OnlyB(hist[base..]);
  }

  /**
   What a worker can tell before it applies changes, from its own version alone:
   they keep it able to catch up, whatever the history and its rules, if and only
   if its version is not below the one they start from.
   */
  lemma GuardIff(v: nat, base: nat, to: nat)
    requires base <= to
    ensures AlwaysKeeps(v, base, to) <==> base <= v
  {
    if base <= v {
      forall start: Rules, hist: seq<Change>, w: Replica |
        w.version == v && to <= |hist| && CanCatchUp(start, hist, w)
        ensures CanCatchUp(start, hist, Synced(w, Incremental(to, hist[base..to])))
      {
        EarlierIsHarmless(start, hist, w, base);
        DeltaIffHarmless(start, hist, w, base, to);
      }
    } else {
      GapLosesA(v, base, to);
    }
  }

  /** The same for changes of which only the first `k` can be read. */
  ghost predicate AlwaysKeepsPart(v: nat, base: nat, k: nat) {
    forall start: Rules, hist: seq<Change>, w: Replica ::
      w.version == v && base + k <= |hist| && CanCatchUp(start, hist, w) ==>
        CanCatchUp(start, hist, Failed(w, hist[base..base + k]))
  }

  lemma SliceBumps(rules: Rules, n: nat, v: nat, base: nat, k: nat)
    requires base + k <= n
    ensures Bumps(rules, OnceA(n, v)[base..base + k]) == k
  {
    EverySetBumps(rules, OnceA(n, v)[base..base + k]);
  }

  /** A worker behind `base` skips the rule "a". */
  lemma PartSkips(v: nat, base: nat, k: nat)
    requires v < base && k > 0
    ensures var hist := OnceA(base + k, v);
      var w := Replica(RulesAt(map[], hist, v), v);
      CanCatchUp(map[], hist, w) && !CanCatchUp(map[], hist, Failed(w, hist[base..base + k]))
  {
    var n := base + k;
    var hist := OnceA(n, v);
    ExactCanCatchUp(map[], hist, v);
    LacksA(n, v, base, k);
    LookA(n, v, v + k);
    OnlyB(hist[v + k..]);
    LeftBehind(map[], hist, Failed(Replica(RulesAt(map[], hist, v), v), hist[base..n]), "a");
  }

  lemma ExactCanCatchUp(start: Rules, hist: seq<Change>, v: nat)
    requires v <= |hist|
    ensures CanCatchUp(start, hist, Replica(RulesAt(start, hist, v), v))
  {
    ReplaySplit(start, hist, v);
  }

  /** One wrong rule that is not touched again. */
  lemma LeftBehind(start: Rules, hist: seq<Change>, w: Replica, id: string)
    requires w.version <= |hist| && Look(w.rules, id) != Look(RulesAt(start, hist, w.version), id)
    requires !Touched(hist[w.version..], id)
    ensures !CanCatchUp(start, hist, w)
  {
    CatchUpIffHarmless(start, hist, w);
  }

  lemma LacksA(n: nat, v: nat, base: nat, k: nat)
    requires v < base && base + k == n
    ensures var w := Failed(Replica(RulesAt(map[], OnceA(n, v), v), v), OnceA(n, v)[base..n]);
      w.version == v + k && Look(w.rules, "a").None?
  {
    var hist := OnceA(n, v);
    var rules := RulesAt(map[], hist, v);
    SliceBumps(rules, n, v, base, k);
    LookA(n, v, v);
    OnlyB(hist[base..n]);
    ReplayForgets(rules, rules, hist[base..n], "a");
  }

  /** A worker ahead of `base` ends with a version past the history. */
  lemma PartRunsAhead(v: nat, base: nat, k: nat, n: nat)
    requires base < v && k > 0 && n == if v < base + k then base + k else v
    ensures var hist := OnceA(n, n);
      var w := Replica(RulesAt(map[], hist, v), v);
      CanCatchUp(map[], hist, w) && !CanCatchUp(map[], hist, Failed(w, hist[base..base + k]))
  {
    var hist := OnceA(n, n);
    ReplaySplit(map[], hist, v);
    SliceBumps(RulesAt(map[], hist, v), n, n, base, k);
  }

  lemma PartLoses(v: nat, base: nat, k: nat)
    requires v != base && k > 0
    ensures !AlwaysKeepsPart(v, base, k)
  {
    if v < base {
      PartSkips(v, base, k);
    } else {
      PartRunsAhead(v, base, k, if v < base + k then base + k else v);
    }
  }

  /**
   And of changes of which only some can be read: a worker is kept able to catch
   up, whatever the history, if and only if it was exactly at the version they
   start from, or none was applied.
   */
  lemma PartGuardIff(v: nat, base: nat, k: nat)
    ensures AlwaysKeepsPart(v, base, k) <==> base == v || k == 0
  {
    if base == v || k == 0 {
      forall start: Rules, hist: seq<Change>, w: Replica |
        w.version == v && base + k <= |hist| && CanCatchUp(start, hist, w)
        ensures CanCatchUp(start, hist, Failed(w, hist[base..base + k]))
      {
        if k == 0 {
          assert hist[base..base + k] == [];
        } else {
          PartCanCatchUp(start, hist, w, k, v + Bumps(w.rules, hist[v..v + k]));
        }
      }
    } else {
      PartLoses(v, base, k);
    }
  }

  // ---------------------------------------------------------------------------
  // Runs out of order
  // ---------------------------------------------------------------------------

  ghost predicate Reaches(s: Sys, steps: seq<Step>, t: Sys) {
    Run(map[], 5, s, steps) && After(map[], 5, s, steps) == t
  }

  lemma Extend(s: Sys, steps: seq<Step>, t: Sys, step: Step) returns (more: seq<Step>, t': Sys)
    requires Reaches(s, steps, t) && Enabled(map[], t, step)
    ensures t' == Next(map[], 5, t, step) && Reaches(s, more, t')
  {
    more, t' := steps + [step], Next(map[], 5, t, step);
    assert more[..|more| - 1] == steps;
  }

  ghost predicate UpToDate(t: Sys) {
    && LogOf(t.log, 5, |t.hist|, t.hist) && t.hist != []
    && t.worker == Replica(Replay(map[], t.hist), |t.hist|)
  }

  /** A worker that joins after the first change gets the snapshot. */
  lemma Join(a: Change, l1: seq<Rule>) returns (s: Sys, steps: seq<Step>, t: Sys)
    requires Lists(l1, Replay(map[], [a]))
    ensures Init(map[], 5, s) && Reaches(s, steps, t)
    ensures t == Sys([a], [(1, a)], Replica(map[], 0), {0}, {Msg(0, Full(1, l1))})
  {
    s := Sys([a], [(1, a)], Replica(map[], 0), {}, {});
    steps, t := Extend(s, [], s, Ask);
    steps, t := Extend(s, steps, t, Answer(0, l1));
  }

  /** The next change, and then the answer to a request made at version `v`. */
  lemma Grow(s: Sys, steps: seq<Step>, t: Sys, c: Change, list: seq<Rule>, v: nat) returns (more: seq<Step>, t': Sys)
    requires Reaches(s, steps, t) && LogOf(t.log, 5, |t.hist|, t.hist) && v in t.asked && 0 < v <= |t.hist| < v + 4
    requires Lists(list, Applied(Replay(map[], t.hist), c))
    ensures Reaches(s, more, t') && t'.hist == t.hist + [c] && LogOf(t'.log, 5, |t'.hist|, t'.hist)
    ensures t'.worker == t.worker && t'.asked == t.asked
    ensures t'.wire == t.wire + {Msg(v, Incremental(|t.hist| + 1, (t.hist + [c])[v..]))}
  {
    ReplayConcat(map[], t.hist, [c]);
    ReplayOne(Replay(map[], t.hist), c);
    PushKeepsLog(t.log, 5, t.hist, c);
    more, t' := Extend(s, steps, t, Record(c));
    DeltaIsMissingChanges(t'.log, 5, t'.hist, v);
    more, t' := Extend(s, more, t', Answer(v, list));
  }

  lemma ReplayOne(rules: Rules, c: Change)
    ensures Replay(rules, [c]) == Applied(rules, c)
  {
    assert [c][..0] == [];
    assert Replay(rules, [c][..0]) == rules;
  }

  lemma ReplaySnoc(rules: Rules, cs: seq<Change>, c: Change)
    ensures Replay(rules, cs + [c]) == Applied(Replay(rules, cs), c)
  {
    assert (cs + [c])[..|cs|] == cs;
  }

  /** The worker takes a snapshot of the second change before that of the first,
      and asks for what comes next. */
  lemma SkipsSnapshot(a: Change, b: Change, l1: seq<Rule>, l2: seq<Rule>) returns (s: Sys, steps: seq<Step>, t: Sys)
    requires Lists(l1, Replay(map[], [a])) && Lists(l2, Replay(map[], [a, b]))
    ensures Init(map[], 5, s) && Reaches(s, steps, t) && UpToDate(t)
    ensures t.hist == [a, b] && t.asked == {0, 2} && Msg(0, Full(1, l1)) in t.wire
  {
    s, steps, t := Join(a, l1);
    PushKeepsLog(t.log, 5, t.hist, b);
    assert [a] + [b] == [a, b];
    steps, t := Extend(s, steps, t, Record(b));
    DeltaIsMissingChanges(t.log, 5, t.hist, 0);
    steps, t := Extend(s, steps, t, Answer(0, l2));
    LoadedListing(l2, Replay(map[], [a, b]));
    steps, t := Extend(s, steps, t, Deliver(Msg(0, Full(2, l2))));
    steps, t := Extend(s, steps, t, Ask);
  }

  /** The worker takes its snapshot and asks for what comes next. */
  lemma Joined(z: Change, l1: seq<Rule>) returns (s: Sys, steps: seq<Step>, t: Sys)
    requires Lists(l1, Replay(map[], [z]))
    ensures Init(map[], 5, s) && Reaches(s, steps, t) && UpToDate(t) && t.hist == [z] && 1 in t.asked
  {
    LoadedListing(l1, Replay(map[], [z]));
    s, steps, t := Join(z, l1);
    steps, t := Extend(s, steps, t, Deliver(Msg(0, Full(1, l1))));
    steps, t := Extend(s, steps, t, Ask);
  }

  /** Two changes on, the worker takes both at once before the first of them alone,
      and asks for what comes next. */
  lemma SkipsDelta(s: Sys, steps: seq<Step>, t: Sys, a: Change, b: Change, l2: seq<Rule>, l3: seq<Rule>)
    returns (more: seq<Step>, t': Sys)
    requires Reaches(s, steps, t) && UpToDate(t) && |t.hist| in t.asked
    requires Lists(l2, Replay(map[], t.hist + [a])) && Lists(l3, Replay(map[], t.hist + [a] + [b]))
    ensures Reaches(s, more, t') && UpToDate(t') && t'.hist == t.hist + [a, b]
    ensures |t'.hist| in t'.asked && Msg(|t.hist|, Incremental(|t.hist| + 1, [a])) in t'.wire
  {
    var n := |t.hist|;
    ReplaySnoc(map[], t.hist, a);
    ReplaySnoc(map[], t.hist + [a], b);
    ReplayConcat(map[], t.hist, [a, b]);
    assert t.hist + [a] + [b] == t.hist + [a, b];
    assert (t.hist + [a])[n..] == [a] && (t.hist + [a, b])[n..] == [a, b];
    more, t' := Grow(s, steps, t, a, l2, n);
    more, t' := Grow(s, more, t', b, l3, n);
    more, t' := Extend(s, more, t', Deliver(Msg(n, Incremental(n + 2, [a, b]))));
    more, t' := Extend(s, more, t', Ask);
  }

  /** The response `late` sets a worker back, and the change it asked for lands there. */
  lemma LandsOnOld(s: Sys, steps: seq<Step>, t: Sys, late: Msg, c: Change, list: seq<Rule>)
    returns (more: seq<Step>, t': Sys)
    requires Reaches(s, steps, t) && UpToDate(t) && |t.hist| in t.asked && late in t.wire
    requires Lists(list, Applied(Replay(map[], t.hist), c))
    ensures Reaches(s, more, t') && t'.hist == t.hist + [c] && t'.worker.version == |t'.hist|
    ensures t'.worker.rules == Applied(Synced(t.worker, late.resp).rules, c)
  {
    var n := |t.hist|;
    more, t' := Grow(s, steps, t, c, list, n);
    assert t'.hist[n..] == [c];
    more, t' := Extend(s, more, t', Deliver(late));
    ReplayOne(t'.worker.rules, c);
    more, t' := Extend(s, more, t', Deliver(Msg(n, Incremental(n + 1, [c]))));
  }

  /** The worker reports the main node's version without its rules. */
  ghost predicate Astray(t: Sys) {
    t.worker.version == |t.hist| && t.worker.rules != Replay(map[], t.hist)
  }

  lemma LateSnapshot(a: Change, b: Change, c: Change, l1: seq<Rule>, l2: seq<Rule>, l3: seq<Rule>)
    returns (s: Sys, steps: seq<Step>)
    requires Lists(l1, Replay(map[], [a])) && Lists(l2, Replay(map[], [a, b])) && Lists(l3, Replay(map[], [a, b, c]))
    requires Applied(Loaded(l1), c) != Replay(map[], [a, b, c])
    ensures Init(map[], 5, s) && Run(map[], 5, s, steps) && Astray(After(map[], 5, s, steps))
  {
    ReplaySnoc(map[], [a, b], c);
    assert [a, b] + [c] == [a, b, c];
    var t;
    s, steps, t := SkipsSnapshot(a, b, l1, l2);
    steps, t := LandsOnOld(s, steps, t, Msg(0, Full(1, l1)), c, l3);
  }

  lemma LateDelta(z: Change, a: Change, b: Change, c: Change,
                  l1: seq<Rule>, l2: seq<Rule>, l3: seq<Rule>, l4: seq<Rule>)
    returns (s: Sys, steps: seq<Step>)
    requires Lists(l1, Replay(map[], [z])) && Lists(l2, Replay(map[], [z, a]))
    requires Lists(l3, Replay(map[], [z, a, b])) && Lists(l4, Replay(map[], [z, a, b, c]))
    requires Applied(Replay(Replay(map[], [z, a, b]), [a]), c) != Replay(map[], [z, a, b, c])
    ensures Init(map[], 5, s) && Run(map[], 5, s, steps) && Astray(After(map[], 5, s, steps))
  {
    ReplaySnoc(map[], [z, a, b], c);
    assert [z] + [a] == [z, a] && [z, a] + [b] == [z] + [a, b] == [z, a, b] && [z, a, b] + [c] == [z, a, b, c];
    var t;
    s, steps, t := Joined(z, l1);
    steps, t := SkipsDelta(s, steps, t, a, b, l2, l3);
    steps, t := LandsOnOld(s, steps, t, Msg(1, Incremental(2, [a])), c, l4);
  }

  lemma ReplaySets(a: char, b: char, c: char)
    requires a != b && b != c && a != c
    ensures Replay(map[], [Set(a)]) == map[[a] := Named(a)]
    ensures Replay(map[], [Set(a), Set(b)]) == map[[a] := Named(a), [b] := Named(b)]
    ensures Replay(map[], [Set(a), Set(b), Set(c)]) == map[[a] := Named(a), [b] := Named(b), [c] := Named(c)]
  {
    assert [Set(a)][..0] == [] && [Set(a), Set(b)][..1] == [Set(a)];
    assert [Set(a), Set(b), Set(c)][..2] == [Set(a), Set(b)];
    assert [a] != [b] && [b] != [c] && [a] != [c] by {
      assert [a][0] != [b][0] && [b][0] != [c][0] && [a][0] != [c][0];
    }
  }

  /**
   The order of delivery matters: if an old snapshot arrives late, the next
   changes land on it, and the worker is astray.
   */
  lemma SnapshotArrivesLate() returns (s: Sys, steps: seq<Step>)
    ensures Init(map[], 5, s) && Run(map[], 5, s, steps) && Astray(After(map[], 5, s, steps))
  {
    var a, b, c := Named('a'), Named('b'), Named('c');
    ReplaySets('a', 'b', 'c');
    LoadedListing([a], Replay(map[], [Set('a')]));
    assert "b"[0] != "a"[0] && "b"[0] != "c"[0];
    assert "b" !in Applied(Loaded([a]), Set('c'));
    s, steps := LateSnapshot(Set('a'), Set('b'), Set('c'), [a], [a, b], [a, b, c]);
  }

  lemma ReplayDeleted()
    ensures Replay(map[], [Set('z'), Set('a'), Delete("a")]) == map["z" := Named('z')]
    ensures Replay(map[], [Set('z'), Set('a'), Delete("a"), Set('b')]) == map["z" := Named('z'), "b" := Named('b')]
  {
    ReplaySets('z', 'a', 'b');
    ReplaySnoc(map[], [Set('z'), Set('a')], Delete("a"));
    ReplaySnoc(map[], [Set('z'), Set('a'), Delete("a")], Set('b'));
    assert [Set('z'), Set('a')] + [Delete("a")] == [Set('z'), Set('a'), Delete("a")];
    assert [Set('z'), Set('a'), Delete("a")] + [Set('b')] == [Set('z'), Set('a'), Delete("a"), Set('b')];
    assert "z"[0] != "a"[0] && "b"[0] != "a"[0];
  }

  /** So it is with old changes: a rule that has been deleted since comes back. */
  lemma DeltaArrivesLate() returns (s: Sys, steps: seq<Step>)
    ensures Init(map[], 5, s) && Run(map[], 5, s, steps) && Astray(After(map[], 5, s, steps))
  {
    var a, b, z := Named('a'), Named('b'), Named('z');
    ReplaySets('z', 'a', 'b');
    ReplayDeleted();
    ReplayOne(map["z" := z], Set('a'));
    assert "a"[0] != "b"[0] && "a"[0] != "z"[0];
    assert "a" in Applied(Replay(map["z" := z], [Set('a')]), Set('b')) && "a" !in map["z" := z, "b" := b];
    s, steps := LateDelta(Set('z'), Set('a'), Delete("a"), Set('b'), [z], [z, a], [z], [z, b]);
  }
}
