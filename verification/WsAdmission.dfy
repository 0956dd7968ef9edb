/**
 The WebSocket connection limit (waf-api/src/websocket.rs): an atomic counter
 that every handler raises first and lowers again when it is refused or done.

 The state counts handlers by where they are; `connections` is the only thing
 the code itself keeps.
 */
module WsAdmission {
  import opened Basics
  import opened Modular

  const MAX_WS_CONNECTIONS: nat := 50

  /** `lost` counts admitted requests whose upgrade callback never runs. */
  datatype Gate = Gate(connections: nat, admitted: nat, rejecting: nat, lost: nat)

  datatype Step = Arrive | Undo | Close | Lose

  /** `fetch_add` and `fetch_sub` on a u32. */
  function Up(n: nat): nat {
    if n + 1 == U32 then 0 else n + 1
  }

  function Down(n: nat): nat {
    if n == 0 then U32 - 1 else n - 1
  }

  function InFlight(g: Gate): nat {
    g.admitted + g.rejecting + g.lost
  }

  predicate Enabled(g: Gate, step: Step) {
    match step
    case Arrive => true
    case Undo => g.rejecting > 0
    case Close => g.admitted > 0
    case Lose => g.admitted > 0
  }

  function Next(g: Gate, step: Step): Gate
    requires Enabled(g, step)
  {
    match step
    case Arrive =>
      if g.connections >= MAX_WS_CONNECTIONS then g.(connections := Up(g.connections), rejecting := g.rejecting + 1)
      else g.(connections := Up(g.connections), admitted := g.admitted + 1)
    case Undo => g.(connections := Down(g.connections), rejecting := g.rejecting - 1)
    case Close => g.(connections := Down(g.connections), admitted := g.admitted - 1)
    case Lose => g.(admitted := g.admitted - 1, lost := g.lost + 1)
  }

  const START := Gate(0, 0, 0, 0)

  /** A run from the empty gate in which never more than `bound` handlers are in flight. */
  ghost predicate Run(steps: seq<Step>, bound: nat)
    decreases |steps|, 0
  {
    steps != [] ==>
      && Run(steps[..|steps| - 1], bound)
      && Enabled(After(steps[..|steps| - 1], bound), steps[|steps| - 1])
      && InFlight(Next(After(steps[..|steps| - 1], bound), steps[|steps| - 1])) <= bound
  }

  ghost function After(steps: seq<Step>, bound: nat): Gate
    requires Run(steps, bound)
    decreases |steps|, 1
  {
    if steps == [] then START else Next(After(steps[..|steps| - 1], bound), steps[|steps| - 1])
  }

  /** The counter is the number of handlers in flight, up to wrap-around. */
  predicate Counted(g: Gate) {
    g.connections == Rem(InFlight(g), U32)
  }

  predicate Limited(g: Gate) {
    g.admitted + g.lost <= 50
  }

  lemma {:induction false} UpCounts(n: nat)
    ensures Up(Rem(n, U32)) == Rem(n + 1, U32) && Down(Rem(n + 1, U32)) == Rem(n, U32)
  {
    if n >= U32 {
      UpCounts(n - U32);
    }
  }

  lemma StepCounts(g: Gate, step: Step)
    requires Counted(g) && Enabled(g, step)
    ensures Counted(Next(g, step))
  {
    UpCounts(InFlight(g));
    if InFlight(g) > 0 {
      UpCounts(InFlight(g) - 1);
    }
  }

  lemma SmallCounts(g: Gate)
    requires Counted(g) && InFlight(g) < U32
    ensures g.connections == InFlight(g)
  {
  }

  lemma {:induction false} RunIsCounted(steps: seq<Step>, bound: nat)
    requires Run(steps, bound)
    ensures Counted(After(steps, bound)) && InFlight(After(steps, bound)) <= bound
    decreases |steps|
  {
    if steps != [] {
      RunIsCounted(steps[..|steps| - 1], bound);
      StepCounts(After(steps[..|steps| - 1], bound), steps[|steps| - 1]);
    }
  }

  lemma StepStaysLimited(g: Gate, step: Step)
    requires Counted(g) && Limited(g) && Enabled(g, step) && InFlight(Next(g, step)) <= U32
    ensures Limited(Next(g, step))
  {
    if step == Arrive {
      assert InFlight(g) < U32;
      SmallCounts(g);
    }
  }

  /** In every interleaving with at most 2^32 handlers in flight, at most 50
      connections are admitted. */
  lemma {:induction false} NeverOverLimit(steps: seq<Step>, bound: nat)
    requires Run(steps, bound) && bound <= U32
    ensures Limited(After(steps, bound))
    decreases |steps|
  {
    if steps != [] {
      NeverOverLimit(steps[..|steps| - 1], bound);
      RunIsCounted(steps[..|steps| - 1], bound);
      StepStaysLimited(After(steps[..|steps| - 1], bound), steps[|steps| - 1]);
    }
  }

  lemma Extend(steps: seq<Step>, bound: nat, step: Step) returns (more: seq<Step>)
    requires Run(steps, bound) && Enabled(After(steps, bound), step)
    requires InFlight(Next(After(steps, bound), step)) <= bound
    ensures Run(more, bound) && After(more, bound) == Next(After(steps, bound), step)
  {
    more := steps + [step];
    assert more[..|more| - 1] == steps;
  }

  /** The gate after `n` arrivals. */
  function Crowded(n: nat): Gate {
    Gate(Rem(n, U32), Min(n, MAX_WS_CONNECTIONS), n - Min(n, MAX_WS_CONNECTIONS), 0)
  }

  lemma CrowdGrows(n: nat)
    requires n < U32
    ensures Next(Crowded(n), Arrive) == Crowded(n + 1) && InFlight(Crowded(n + 1)) == n + 1
  {
    UpCounts(n);
    SmallCounts(Crowded(n));
  }

  lemma {:induction false} Crowd(n: nat, bound: nat) returns (steps: seq<Step>)
    requires n <= U32 && n <= bound
    ensures Run(steps, bound)
    ensures After(steps, bound) == Crowded(n)
    decreases n
  {
    if n == 0 {
      steps := [];
    } else {
      steps := Crowd(n - 1, bound);
      CrowdGrows(n - 1);
      steps := Extend(steps, bound, Arrive);
    }
  }

  ghost predicate LimitHolds(bound: nat) {
    forall steps: seq<Step> :: Run(steps, bound) ==> Limited(After(steps, bound))
  }

  /** The limit holds in all runs exactly as long as no more than 2^32 handlers
      can be in flight: one more and the counter has wrapped to zero. */
  lemma LimitTheorem(bound: nat)
    ensures LimitHolds(bound) <==> bound <= U32
  {
    if bound <= U32 {
      forall steps: seq<Step> | Run(steps, bound) ensures Limited(After(steps, bound)) {
        NeverOverLimit(steps, bound);
      }
    } else {
      var steps := Crowd(U32, bound);
      var over := Extend(steps, bound, Arrive);
      assert !Limited(After(over, bound));
    }
  }

  /** A request is admitted exactly if fewer than 50 handlers are in flight; those
      still being turned away and those lost count too. */
  predicate AdmitsByLoad(g: Gate) {
    Next(g, Arrive).admitted == (if InFlight(g) < 50 then g.admitted + 1 else g.admitted)
  }

  lemma GateAdmitsByLoad(g: Gate)
    requires Counted(g) && InFlight(g) < U32
    ensures AdmitsByLoad(g)
  {
    SmallCounts(g);
  }

  lemma AdmittedIff(steps: seq<Step>, bound: nat)
    requires Run(steps, bound) && bound < U32
    ensures AdmitsByLoad(After(steps, bound))
  {
    RunIsCounted(steps, bound);
    GateAdmitsByLoad(After(steps, bound));
  }

  /** The steps after which the gate stands at `g`, and then more. */
  ghost predicate Continues(steps: seq<Step>, more: seq<Step>) {
    |steps| <= |more| && more[..|steps|] == steps
  }

  lemma {:induction false} PrefixRuns(steps: seq<Step>, more: seq<Step>, bound: nat)
    requires Run(more, bound) && Continues(steps, more)
    ensures Run(steps, bound) && After(steps, bound).lost <= After(more, bound).lost
    decreases |more|
  {
    if |steps| < |more| {
      var init := more[..|more| - 1];
      assert init[..|steps|] == steps;
      PrefixRuns(steps, init, bound);
    } else {
      assert steps == more;
    }
  }

  /** Lost connections are never given back: once 50 are lost, no later request
      is admitted, in any continuation. */
  lemma LostSlotsStayLost(steps: seq<Step>, more: seq<Step>, bound: nat)
    requires Run(more, bound) && bound < U32 && Continues(steps, more)
    requires Run(steps, bound) && After(steps, bound).lost >= MAX_WS_CONNECTIONS
    ensures Next(After(more, bound), Arrive).admitted == After(more, bound).admitted
  {
    PrefixRuns(steps, more, bound);
    AdmittedIff(more, bound);
  }

  /** When everything has come to rest, the counter is what was lost. */
  lemma QuietCounter(steps: seq<Step>, bound: nat)
    requires Run(steps, bound) && bound < U32
    requires After(steps, bound).admitted == 0 && After(steps, bound).rejecting == 0
    ensures After(steps, bound).connections == After(steps, bound).lost
  {
    RunIsCounted(steps, bound);
  }
}
