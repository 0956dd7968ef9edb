/**
 Forwarding of API writes from a worker to the main node
 (waf-cluster/src/cluster_forward.rs): the registry of pending requests, and
 the protocol over a network that drops, repeats and reorders.
 */
module ClusterForward {
  import opened Basics

  type Id = string

  datatype Response = Response(requestId: Id, payload: string)

  /** One-shot channel of a registered request, seen from the waiting caller. */
  datatype Caller =
    | Waiting                  // the receiver is alive and empty
    | Got(response: Response)
    | TimedOut                 // the receiver is gone, the sender is not
    | SendFailed               // likewise: the outbound channel was closed
    | Dropped                  // the sender was dropped before a response

  // ---------------------------------------------------------------------------
  // The registry
  // ---------------------------------------------------------------------------

  /** Delivering into a one-shot channel: only a live receiver takes the value. */
  function Deliver(c: Caller, r: Response): Caller {
    if c.Waiting? then Got(r) else c
  }

  function DropSender(c: Caller): Caller {
    if c.Waiting? then Dropped else c
  }

  class PendingForwards {
    var inner: set<Id>               // ids whose sender is stored
    var callers: map<Id, Caller>     // the receiving ends, by id

    constructor ()
      ensures inner == {} && callers == map[]
    {
      inner, callers := {}, map[];
    }

    /** The registry part of a protocol state. */
    ghost predicate Shows(s: State)
      reads this
    {
      inner == s.pending && callers == s.callers
    }

    /** Inserting over an id drops the sender stored under it. */
    method Register(id: Id)
      modifies this
      ensures inner == old(inner) + {id} && callers == old(callers)[id := Waiting]
      ensures forall s: State :: old(Shows(s)) && Enabled(s, Step.Register(id)) ==> Shows(Apply(s, Step.Register(id)))
    {
      inner := inner + {id};
      callers := callers[id := Waiting];
    }

    method Resolve(r: Response) returns (matched: bool)
      requires inner <= callers.Keys
      modifies this
      ensures matched == (r.requestId in old(inner)) && inner == old(inner) - {r.requestId}
      ensures callers == if matched && old(callers)[r.requestId].Waiting?
        then old(callers)[r.requestId := Got(r)] else old(callers)
      ensures forall s: State :: old(Shows(s)) ==> Shows(OnArrive(s, r))
    {
      matched := r.requestId in inner;
      if matched {
        inner := inner - {r.requestId};
        callers := callers[r.requestId := Deliver(callers[r.requestId], r)];
      }
    }

    method CancelAll()
      requires inner <= callers.Keys
      modifies this
      ensures inner == {}
      ensures callers == map id | id in old(callers) ::
        if id in old(inner) && old(callers)[id].Waiting? then Dropped else old(callers)[id]
      ensures forall s: State :: old(Shows(s)) ==> Shows(Apply(s, Step.CancelAll))
    {
      callers := map id | id in callers :: if id in inner then DropSender(callers[id]) else callers[id];
      inner := {};
    }
  }

  // ---------------------------------------------------------------------------
  // The protocol
  // ---------------------------------------------------------------------------

  /** `pending` is the registry's key set; `requests` and `replies` hold every
      message ever sent, so each may be delivered again, late or never;
      `resolved` and `cancelled` record how entries left the registry and
      `received` what each caller was handed. */
  datatype State = State(
    pending: set<Id>,
    callers: map<Id, Caller>,
    requests: set<Id>,
    replies: set<Response>,
    resolved: set<Id>,
    cancelled: set<Id>,
    received: map<Id, seq<Response>>)

  const INITIAL := State({}, map[], {}, {}, {}, {}, map[])

  datatype Step =
    | Register(id: Id)
    | Send(id: Id)
    | FailSend(id: Id)
    | Reply(response: Response)        // the main node answers a request it received
    | Arrive(response: Response)       // the receive loop calls `resolve`
    | Timeout(id: Id)
    | CancelAll

  /** Ids are fresh, the main node only answers requests, and only sent
      messages arrive. */
  predicate Enabled(s: State, step: Step) {
    match step
    case Register(id) => id !in s.callers
    case Send(id) => id in s.callers
    case FailSend(id) => id in s.callers && s.callers[id].Waiting?
    case Reply(r) => r.requestId in s.requests
    case Arrive(r) => r in s.replies
    case Timeout(id) => id in s.callers && s.callers[id].Waiting?
    case CancelAll => true
  }

  function OnArrive(s: State, r: Response): State {
    var id := r.requestId;
    if id !in s.pending || id !in s.callers then s
    else s.(
      pending := s.pending - {id},
      callers := s.callers[id := Deliver(s.callers[id], r)],
      resolved := s.resolved + {id},
      received := if s.callers[id].Waiting?
                  then s.received[id := (if id in s.received then s.received[id] else []) + [r]] else s.received)
  }

  function Apply(s: State, step: Step): State
    requires Enabled(s, step)
  {
    match step
    case Register(id) => s.(pending := s.pending + {id}, callers := s.callers[id := Waiting])
    case Send(id) => s.(requests := s.requests + {id})
    case FailSend(id) => s.(callers := s.callers[id := SendFailed])
    case Reply(r) => s.(replies := s.replies + {r})
    case Arrive(r) => OnArrive(s, r)
    case Timeout(id) => s.(callers := s.callers[id := TimedOut])
    case CancelAll => s.(
      pending := {},
      callers := map id | id in s.callers :: if id in s.pending then DropSender(s.callers[id]) else s.callers[id],
      cancelled := s.cancelled + s.pending)
  }

  predicate ValidRun(steps: seq<Step>)
    decreases |steps|, 0
  {
    steps == [] || (ValidRun(steps[..|steps| - 1]) && Enabled(Exec(steps[..|steps| - 1]), steps[|steps| - 1]))
  }

  function Exec(steps: seq<Step>): State
    requires ValidRun(steps)
    decreases |steps|, 1
  {
    if steps == [] then INITIAL else Apply(Exec(steps[..|steps| - 1]), steps[|steps| - 1])
  }

  /** Every registered request is pending, resolved or cancelled, and only one of them. */
  ghost predicate Conserved(s: State) {
    && s.callers.Keys == s.pending + s.resolved + s.cancelled
    && s.pending !! s.resolved && s.pending !! s.cancelled && s.resolved !! s.cancelled
  }

  /** A caller's view agrees with the registry. */
  ghost predicate CallersAgree(s: State) {
    forall id <- s.callers ::
      match s.callers[id]
      case Waiting => id in s.pending && id !in s.received
      case Got(r) =>
        && id in s.resolved && r.requestId == id && r in s.replies
        && id in s.received && s.received[id] == [r]
      case TimedOut => id !in s.received
      case SendFailed => id !in s.received
      case Dropped => id in s.cancelled && id !in s.received
  }

  ghost predicate MessagesAreReal(s: State) {
    && s.requests <= s.callers.Keys
    && (forall r <- s.replies :: r.requestId in s.requests)
    && s.received.Keys <= s.callers.Keys
  }

  ghost predicate Inv(s: State) {
    Conserved(s) && CallersAgree(s) && MessagesAreReal(s)
  }

  lemma ApplyKeepsInv(s: State, step: Step)
    requires Inv(s) && Enabled(s, step)
    ensures Inv(Apply(s, step))
  {
  }

  lemma {:induction false} RunKeepsInv(steps: seq<Step>)
    requires ValidRun(steps)
    ensures Inv(Exec(steps))
    decreases |steps|
  {
    if steps != [] {
      RunKeepsInv(steps[..|steps| - 1]);
      ApplyKeepsInv(Exec(steps[..|steps| - 1]), steps[|steps| - 1]);
    }
  }

  /** Registered = pending + resolved + cancelled, in every reachable state,
      timeouts and failed sends included. */
  lemma RequestsAreConserved(steps: seq<Step>)
    requires ValidRun(steps)
    ensures var s := Exec(steps);
      |s.callers| == |s.pending| + |s.resolved| + |s.cancelled|
  {
    RunKeepsInv(steps);
    var s := Exec(steps);
    assert |s.callers.Keys| == |s.callers|;
    assert |s.pending + s.resolved| == |s.pending| + |s.resolved|;
    assert |s.pending + s.resolved + s.cancelled| == |s.pending + s.resolved| + |s.cancelled|;
  }

  /** A caller is handed at most one response, it carries the caller's own id,
      and the main node really sent it for a request that was really sent. */
  lemma CallersGetTheirOwnResponse(steps: seq<Step>, id: Id)
    requires ValidRun(steps)
    ensures var s := Exec(steps);
      id in s.received ==> exists r :: s.received[id] == [r] && r.requestId == id && r in s.replies && id in s.requests
  {
    RunKeepsInv(steps);
    var s := Exec(steps);
    if id in s.received {
      var r := s.callers[id].response;
      assert s.received[id] == [r];
    }
  }

  /** A reply finds no entry exactly when its request was already resolved or
      cancelled; a timeout alone never makes a reply homeless. */
  lemma UnmatchedReplies(steps: seq<Step>, r: Response)
    requires ValidRun(steps) && r in Exec(steps).replies
    ensures var s := Exec(steps);
      r.requestId !in s.pending <==> r.requestId in s.resolved || r.requestId in s.cancelled
  {
    RunKeepsInv(steps);
  }

  /** Steps that can take the entry of `id` out of the registry. */
  predicate Clears(step: Step, id: Id) {
    step.CancelAll? || (step.Arrive? && step.response.requestId == id)
  }

  /** No step after `i` clears `id`. */
  predicate NotCleared(steps: seq<Step>, i: nat, id: Id) {
    forall k :: i < k < |steps| ==> !Clears(steps[k], id)
  }

  /** The caller is gone: it timed out or could not send. */
  predicate GaveUp(s: State, id: Id) {
    id in s.callers && (s.callers[id] == TimedOut || s.callers[id] == SendFailed)
  }

  predicate GivesUp(step: Step, id: Id) {
    step == Timeout(id) || step == FailSend(id)
  }

  /** A step on a registered id: the entry goes exactly when it is cleared, and
      does not come back. */
  lemma StepOnEntry(s: State, step: Step, id: Id)
    requires Inv(s) && Enabled(s, step) && id in s.callers
    ensures id in Apply(s, step).callers
    ensures id in Apply(s, step).pending <==> id in s.pending && !Clears(step, id)
    ensures GaveUp(s, id) && id in Apply(s, step).pending ==> GaveUp(Apply(s, step), id)
  {
  }

  /**
   A request whose caller timed out or failed to send stays registered exactly
   until the first reply for it or cancel arrives, however long that takes, and
   is gone for good then.
   */
  lemma {:induction false} TimeoutsKeepTheEntry(steps: seq<Step>, i: nat, id: Id)
    requires ValidRun(steps) && i < |steps| && GivesUp(steps[i], id)
    ensures id in Exec(steps).callers && (id in Exec(steps).pending <==> NotCleared(steps, i, id))
    ensures id in Exec(steps).pending ==> GaveUp(Exec(steps), id)
    decreases |steps|
  {
    var n := |steps| - 1;
    var before := steps[..n];
    RunKeepsInv(before);
    if i == n {
      StepGivesUp(Exec(before), steps[n], id);
    } else {
      TimeoutsKeepTheEntry(before, i, id);
      assert NotCleared(steps, i, id) <==> NotCleared(before, i, id) && !Clears(steps[n], id);
      StepOnEntry(Exec(before), steps[n], id);
    }
  }

  lemma StepGivesUp(s: State, step: Step, id: Id)
    requires Inv(s) && Enabled(s, step) && GivesUp(step, id)
    ensures GaveUp(Apply(s, step), id) && id in Apply(s, step).pending
  {
  }

  /** What was registered, sent and answered, in terms of the steps. */
  lemma {:induction false} HistoryIs(steps: seq<Step>, id: Id, r: Response)
    requires ValidRun(steps)
    ensures var s := Exec(steps);
      && (id in s.callers <==> Step.Register(id) in steps)
      && (id in s.requests <==> Send(id) in steps)
      && (r in s.replies <==> Reply(r) in steps)
    decreases |steps|
  {
    if steps != [] {
      HistoryIs(steps[..|steps| - 1], id, r);
      assert steps == steps[..|steps| - 1] + [steps[|steps| - 1]];
    }
  }

  lemma Extend(steps: seq<Step>, step: Step) returns (more: seq<Step>)
    requires ValidRun(steps) && Enabled(Exec(steps), step)
    ensures ValidRun(more) && Exec(more) == Apply(Exec(steps), step)
  {
    more := steps + [step];
    assert more[..|more| - 1] == steps;
  }

  /** At any time a new request can be made, and its answer gets to its caller. */
  lemma RequestCanSucceed(steps: seq<Step>, r: Response) returns (more: seq<Step>)
    requires ValidRun(steps) && Step.Register(r.requestId) !in steps
    ensures ValidRun(more) && r.requestId in Exec(more).callers && Exec(more).callers[r.requestId] == Got(r)
  {
    HistoryIs(steps, r.requestId, r);
    more := Extend(steps, Step.Register(r.requestId));
    more := Extend(more, Send(r.requestId));
    more := Extend(more, Reply(r));
    more := Extend(more, Arrive(r));
  }

  // ---------------------------------------------------------------------------
  // What becomes of a caller
  // ---------------------------------------------------------------------------

  /** Steps that can end the wait of the caller of `id`. */
  predicate Decisive(step: Step, id: Id) {
    || (step.Arrive? && step.response.requestId == id)
    || step == Timeout(id) || step == FailSend(id) || step == Step.CancelAll
  }

  /** How each of them ends it. */
  predicate EndsAs(step: Step, c: Caller) {
    match step
    case Arrive(r) => c == Got(r)
    case Timeout(_) => c == TimedOut
    case FailSend(_) => c == SendFailed
    case CancelAll => c == Dropped
    case _ => false
  }

  /** `steps[j]` is the first decisive step after `id` was registered at `i`. */
  predicate DecidedAt(steps: seq<Step>, i: nat, j: nat, id: Id) {
    && i < j < |steps| && steps[i] == Step.Register(id) && Decisive(steps[j], id)
    && forall k :: i < k < j ==> !Decisive(steps[k], id)
  }

  /** `id` was registered at `i` and nothing has decided since. */
  predicate StillOpen(steps: seq<Step>, i: nat, id: Id) {
    i < |steps| && steps[i] == Step.Register(id) && forall k :: i < k < |steps| ==> !Decisive(steps[k], id)
  }

  /** A waiting caller waits on, or its wait ends as it should. */
  lemma StepOnCaller(s: State, step: Step, id: Id)
    requires Inv(s) && Enabled(s, step) && id in s.callers
    ensures id in Apply(s, step).callers
    ensures s.callers[id].Waiting? && Decisive(step, id) ==> EndsAs(step, Apply(s, step).callers[id])
    ensures !s.callers[id].Waiting? || !Decisive(step, id) ==> Apply(s, step).callers[id] == s.callers[id]
  {
  }

  /** A registered caller waits exactly as long as nothing decides. */
  lemma {:induction false} WaitsWhileOpen(steps: seq<Step>, i: nat, id: Id)
    requires ValidRun(steps) && StillOpen(steps, i, id)
    ensures id in Exec(steps).callers && Exec(steps).callers[id] == Waiting
    decreases |steps|
  {
    var n := |steps| - 1;
    if i < n {
      var before := steps[..n];
      RunKeepsInv(before);
      WaitsWhileOpen(before, i, id);
      StepOnCaller(Exec(before), steps[n], id);
    }
  }

  /** The first decisive step decides, for good. */
  lemma {:induction false} FirstStepDecides(steps: seq<Step>, i: nat, j: nat, id: Id)
    requires ValidRun(steps) && DecidedAt(steps, i, j, id)
    ensures id in Exec(steps).callers && EndsAs(steps[j], Exec(steps).callers[id])
    decreases |steps|
  {
    var n := |steps| - 1;
    var before := steps[..n];
    RunKeepsInv(before);
    if j == n {
      WaitsWhileOpen(before, i, id);
    } else {
      FirstStepDecides(before, i, j, id);
    }
    StepOnCaller(Exec(before), steps[n], id);
  }

  /** A caller was registered, and is undecided or decided. */
  lemma {:induction false} Registered(steps: seq<Step>, id: Id) returns (i: nat, j: nat)
    requires ValidRun(steps) && id in Exec(steps).callers
    ensures StillOpen(steps, i, id) || DecidedAt(steps, i, j, id)
    decreases |steps|
  {
    var n := |steps| - 1;
    var before := steps[..n];
    if id in Exec(before).callers {
      i, j := Registered(before, id);
      if StillOpen(before, i, id) {
        j := n;
      }
    } else {
      i, j := n, n;
    }
  }

  ghost predicate Decided(steps: seq<Step>, id: Id, c: Caller) {
    exists i: nat, j: nat :: DecidedAt(steps, i, j, id) && EndsAs(steps[j], c)
  }

  ghost predicate Open(steps: seq<Step>, id: Id) {
    exists i: nat :: StillOpen(steps, i, id)
  }

  /**
   Exactly what becomes of every caller, in every run: it has the response `r` if and
   only if, of the replies for its id, its timeout, its failed send and a cancel, the
   arrival of `r` came first after it registered; it timed out, failed to send or was
   dropped if and only if that came first; and it still waits if and only if none has
   come.  It is handed the response it has, and nothing otherwise.
   */
  lemma CallerFate(steps: seq<Step>, id: Id, c: Caller)
    requires ValidRun(steps)
    ensures var s := Exec(steps);
      && (id in s.callers && s.callers[id] == c <==> if c.Waiting? then Open(steps, id) else Decided(steps, id, c))
      && (id in s.received <==> id in s.callers && s.callers[id].Got?)
      && (id in s.received ==> s.received[id] == [s.callers[id].response])
  {
    RunKeepsInv(steps);
    var s := Exec(steps);
    if i: nat :| StillOpen(steps, i, id) {
      WaitsWhileOpen(steps, i, id);
    }
    if i: nat, j: nat :| DecidedAt(steps, i, j, id) && EndsAs(steps[j], c) {
      FirstStepDecides(steps, i, j, id);
      EndsAsOne(steps[j], c, s.callers[id]);
    }
    if id in s.callers {
      var i, j := Registered(steps, id);
      if StillOpen(steps, i, id) {
        WaitsWhileOpen(steps, i, id);
      } else {
        FirstStepDecides(steps, i, j, id);
      }
    }
  }

  lemma EndsAsOne(step: Step, c: Caller, d: Caller)
    requires EndsAs(step, c) && EndsAs(step, d)
    ensures c == d && !c.Waiting?
  {
  }
}
