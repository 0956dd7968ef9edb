/**
 `swap_from` of the rule sets while readers run (waf-engine/src/rules.rs).

 Every operation on the concurrent map is one atomic step.  A swap copies the
 keys of the new set in some order, collects the stale keys, and removes them
 in some order.  A reader looks up the host's bucket at one moment and the "*"
 bucket at the same or a later one.
 */
module LiveSwap {
  import opened Basics

  type Key = string

  const GLOBAL: Key := "*"

  datatype Phase = Copying(todo: set<Key>) | Pruning(stale: set<Key>) | Done

  datatype Swap<V> = Swap(live: map<Key, V>, source: map<Key, V>, phase: Phase)

  datatype Step = Copy(key: Key) | Collect | Remove(key: Key) | Finish

  function Start<V>(live: map<Key, V>, source: map<Key, V>): Swap<V> {
    Swap(live, source, Copying(source.Keys))
  }

  predicate Enabled<V>(s: Swap<V>, step: Step) {
    match step
    case Copy(k) => s.phase.Copying? && k in s.phase.todo && k in s.source
    case Collect => s.phase == Copying({})
    case Remove(k) => s.phase.Pruning? && k in s.phase.stale
    case Finish => s.phase == Pruning({})
  }

  function Apply<V>(s: Swap<V>, step: Step): Swap<V> {
    if !Enabled(s, step) then s
    else match step
      case Copy(k) => s.(live := s.live[k := s.source[k]], phase := Copying(s.phase.todo - {k}))
      case Collect => s.(phase := Pruning(s.live.Keys - s.source.Keys))
      case Remove(k) => s.(live := s.live - {k}, phase := Pruning(s.phase.stale - {k}))
      case Finish => s.(phase := Done)
  }

  function Exec<V>(s: Swap<V>, steps: seq<Step>): Swap<V>
    decreases |steps|
  {
    if steps == [] then s else Apply(Exec(s, steps[..|steps| - 1]), steps[|steps| - 1])
  }

  predicate Valid<V>(s: Swap<V>, steps: seq<Step>)
    decreases |steps|
  {
    steps == [] || (Valid(s, steps[..|steps| - 1]) && Enabled(Exec(s, steps[..|steps| - 1]), steps[|steps| - 1]))
  }

  /** A run of the whole swap from `before` to `source`. */
  ghost predicate SwapRun<V>(before: map<Key, V>, source: map<Key, V>, steps: seq<Step>) {
    Valid(Start(before, source), steps) && Exec(Start(before, source), steps).phase.Done?
  }

  /** The state after the first `i` steps. */
  function At<V>(before: map<Key, V>, source: map<Key, V>, steps: seq<Step>, i: nat): Swap<V>
    requires i <= |steps|
  {
    Exec(Start(before, source), steps[..i])
  }

  function LiveAt<V>(before: map<Key, V>, source: map<Key, V>, steps: seq<Step>, i: nat): map<Key, V>
    requires i <= |steps|
  {
    At(before, source, steps, i).live
  }

  // ---------------------------------------------------------------------------
  // What every step keeps
  // ---------------------------------------------------------------------------

  /** Keys already copied hold the new bucket, all others the old one; once
      copying is over only keys without a new bucket differ from the source. */
  ghost predicate Inv<V>(before: map<Key, V>, s: Swap<V>) {
    match s.phase
    case Copying(todo) =>
      && todo <= s.source.Keys
      && forall k :: Get(s.live, k) == if k in s.source && k !in todo then Get(s.source, k) else Get(before, k)
    case Pruning(stale) =>
      && stale !! s.source.Keys
      && forall k :: Get(s.live, k) == if k in stale then Get(before, k) else Get(s.source, k)
    case Done => forall k :: Get(s.live, k) == Get(s.source, k)
  }

  lemma ApplyKeepsInv<V>(before: map<Key, V>, s: Swap<V>, step: Step)
    requires Inv(before, s) && Enabled(s, step)
    ensures Inv(before, Apply(s, step)) && Apply(s, step).source == s.source
  {
    if step == Collect {
      var s' := Apply(s, step);
      forall k ensures Get(s'.live, k) == if k in s'.phase.stale then Get(before, k) else Get(s.source, k) {
        assert Get(s.live, k) == if k in s.source then Get(s.source, k) else Get(before, k);
      }
    }
  }

  lemma {:induction false} ValidPrefix<V>(s: Swap<V>, steps: seq<Step>, i: nat)
    requires Valid(s, steps) && i <= |steps|
    ensures Valid(s, steps[..i])
    decreases |steps|
  {
    if i < |steps| {
      ValidPrefix(s, steps[..|steps| - 1], i);
      assert steps[..|steps| - 1][..i] == steps[..i];
    } else {
      assert steps[..i] == steps;
    }
  }

  lemma {:induction false} ExecKeepsInv<V>(before: map<Key, V>, source: map<Key, V>, steps: seq<Step>)
    requires Valid(Start(before, source), steps)
    ensures Inv(before, Exec(Start(before, source), steps)) && Exec(Start(before, source), steps).source == source
    decreases |steps|
  {
    if steps != [] {
      ExecKeepsInv(before, source, steps[..|steps| - 1]);
      ApplyKeepsInv(before, Exec(Start(before, source), steps[..|steps| - 1]), steps[|steps| - 1]);
    }
  }

  lemma RunKeepsInv<V>(before: map<Key, V>, source: map<Key, V>, steps: seq<Step>, i: nat)
    requires Valid(Start(before, source), steps) && i <= |steps|
    ensures Inv(before, At(before, source, steps, i)) && At(before, source, steps, i).source == source
  {
    ValidPrefix(Start(before, source), steps, i);
    ExecKeepsInv(before, source, steps[..i]);
  }

  /** At every moment every bucket is the old one or the new one, so a key of
      both sets is never absent. */
  lemma BucketsOldOrNew<V>(before: map<Key, V>, source: map<Key, V>, steps: seq<Step>, i: nat, k: Key)
    requires SwapRun(before, source, steps) && i <= |steps|
    ensures var live := LiveAt(before, source, steps, i);
      && (Get(live, k) == Get(before, k) || Get(live, k) == Get(source, k))
      && (k in before && k in source ==> k in live)
  {
    RunKeepsInv(before, source, steps, i);
  }

  /** The swap ends with exactly the new set. */
  lemma SwapInstallsSource<V>(before: map<Key, V>, source: map<Key, V>, steps: seq<Step>)
    requires SwapRun(before, source, steps)
    ensures LiveAt(before, source, steps, |steps|) == source
  {
    assert steps[..|steps|] == steps;
    RunKeepsInv(before, source, steps, |steps|);
    var live := LiveAt(before, source, steps, |steps|);
    forall k ensures k in live <==> k in source {
      assert Get(live, k) == Get(source, k);
    }
    forall k | k in live ensures live[k] == source[k] {
      assert Get(live, k) == Get(source, k);
    }
  }

  /** Once copying is over it stays over. */
  lemma {:induction false} CopiedStaysCopied<V>(s: Swap<V>, steps: seq<Step>, i: nat)
    requires i <= |steps| && !Exec(s, steps[..i]).phase.Copying?
    ensures !Exec(s, steps).phase.Copying?
    decreases |steps|
  {
    if i < |steps| {
      assert steps[..|steps| - 1][..i] == steps[..i];
      CopiedStaysCopied(s, steps[..|steps| - 1], i);
    } else {
      assert steps[..i] == steps;
    }
  }

  // ---------------------------------------------------------------------------
  // Readers
  // ---------------------------------------------------------------------------

  ghost predicate Hit<V>(m: map<Key, V>, k: Key, matches: V -> bool) {
    k in m && matches(m[k])
  }

  /** The reader's answer: host bucket at moment `i`, else "*" at moment `j`. */
  ghost predicate Reads<V>(before: map<Key, V>, source: map<Key, V>, steps: seq<Step>, i: nat, j: nat,
                           host: Key, matches: V -> bool)
    requires i <= |steps| && j <= |steps|
  {
    Hit(LiveAt(before, source, steps, i), host, matches) || Hit(LiveAt(before, source, steps, j), GLOBAL, matches)
  }

  ghost predicate AlwaysReads<V(!new)>(before: map<Key, V>, source: map<Key, V>, host: Key, matches: V -> bool) {
    forall steps: seq<Step>, i: nat, j: nat :: SwapRun(before, source, steps) && i <= j <= |steps|
      ==> Reads(before, source, steps, i, j, host, matches)
  }

  ghost predicate NeverReads<V(!new)>(before: map<Key, V>, source: map<Key, V>, host: Key, matches: V -> bool) {
    forall steps: seq<Step>, i: nat, j: nat :: SwapRun(before, source, steps) && i <= j <= |steps|
      ==> !Reads(before, source, steps, i, j, host, matches)
  }

  /** One bucket matches before and after; or the host's bucket matched and goes
      away altogether while the new "*" bucket matches. */
  ghost predicate Covered<V>(before: map<Key, V>, source: map<Key, V>, host: Key, matches: V -> bool) {
    || (Hit(before, host, matches) && Hit(source, host, matches))
    || (Hit(before, GLOBAL, matches) && Hit(source, GLOBAL, matches))
    || (Hit(before, host, matches) && Hit(source, GLOBAL, matches) && host !in source)
  }

  lemma CoveredReads<V>(before: map<Key, V>, source: map<Key, V>, steps: seq<Step>, i: nat, j: nat,
                        host: Key, matches: V -> bool)
    requires SwapRun(before, source, steps) && i <= j <= |steps|
    requires Covered(before, source, host, matches)
    ensures Reads(before, source, steps, i, j, host, matches)
  {
    BucketsOldOrNew(before, source, steps, i, host);
    BucketsOldOrNew(before, source, steps, j, GLOBAL);
    RunKeepsInv(before, source, steps, i);
    RunKeepsInv(before, source, steps, j);
    var s := At(before, source, steps, i);
    if !s.phase.Copying? {
      assert steps[..j][..i] == steps[..i];
      CopiedStaysCopied(Start(before, source), steps[..j], i);
    } else {
      assert Get(s.live, host)
          == if host in source && host !in s.phase.todo then Get(source, host) else Get(before, host);
    }
  }

  /** Steps that remain: copies, the collection, removals, the end. */
  function Remaining<V>(s: Swap<V>): (nat, nat) {
    match s.phase
    case Copying(todo) => (2, |todo|)
    case Pruning(stale) => (1, |stale|)
    case Done => (0, 0)
  }

  lemma ExtendRun<V>(s: Swap<V>, steps: seq<Step>, step: Step)
    requires Valid(s, steps) && Enabled(Exec(s, steps), step)
    ensures Valid(s, steps + [step]) && Exec(s, steps + [step]) == Apply(Exec(s, steps), step)
  {
    assert (steps + [step])[..|steps|] == steps;
  }

  /** Some step is always possible until the swap is done. */
  lemma Progress<V>(before: map<Key, V>, s: Swap<V>) returns (step: Step)
    requires Inv(before, s) && !s.phase.Done?
    ensures Enabled(s, step)
    ensures Remaining(Apply(s, step)).0 < Remaining(s).0
         || (Remaining(Apply(s, step)).0 == Remaining(s).0 && Remaining(Apply(s, step)).1 < Remaining(s).1)
  {
    match s.phase
    case Copying(todo) =>
      if todo == {} { step := Collect; } else { var k :| k in todo; step := Copy(k); }
    case Pruning(stale) =>
      if stale == {} { step := Finish; } else { var k :| k in stale; step := Remove(k); }
  }

  /** Every partial run can be completed. */
  lemma {:induction false} CompleteRun<V>(before: map<Key, V>, source: map<Key, V>, steps: seq<Step>)
    returns (more: seq<Step>)
    requires Valid(Start(before, source), steps)
    ensures steps <= more && SwapRun(before, source, more)
    decreases Remaining(Exec(Start(before, source), steps)).0, Remaining(Exec(Start(before, source), steps)).1
  {
    var s := Exec(Start(before, source), steps);
    ExecKeepsInv(before, source, steps);
    if s.phase.Done? {
      more := steps;
    } else {
      var step := Progress(before, s);
      ExtendRun(Start(before, source), steps, step);
      more := CompleteRun(before, source, steps + [step]);
    }
  }

  /** A run, and two moments in it, at which a reader misses what is not covered. */
  lemma MissedRead<V>(before: map<Key, V>, source: map<Key, V>, host: Key, matches: V -> bool)
    returns (steps: seq<Step>, i: nat, j: nat)
    requires !Covered(before, source, host, matches)
    ensures SwapRun(before, source, steps) && i <= j <= |steps|
    ensures !Reads(before, source, steps, i, j, host, matches)
  {
    var s0 := Start(before, source);
    if Hit(before, host, matches) && Hit(source, GLOBAL, matches) {
      // The host's bucket is overwritten first; "*" is still the old one.
      ExtendRun(s0, [], Copy(host));
      steps := CompleteRun(before, source, [] + [Copy(host)]);
      assert steps[..1] == [] + [Copy(host)];
      i, j := 1, 1;
    } else {
      steps := CompleteRun(before, source, []);
      SwapInstallsSource(before, source, steps);
      assert steps[..0] == [];
      if Hit(before, host, matches) {
        i, j := |steps|, |steps|;
      } else if Hit(before, GLOBAL, matches) {
        i, j := 0, |steps|;
      } else {
        i, j := 0, 0;
      }
    }
  }

  /**
   The reader guarantee, exactly: over every order of the swap and every pair
   of lookup moments a reader finds the match if and only if it is covered.
   */
  lemma ReaderGuarantee<V(!new)>(before: map<Key, V>, source: map<Key, V>, host: Key, matches: V -> bool)
    ensures AlwaysReads(before, source, host, matches) <==> Covered(before, source, host, matches)
  {
    if Covered(before, source, host, matches) {
      forall steps: seq<Step>, i: nat, j: nat | SwapRun(before, source, steps) && i <= j <= |steps|
        ensures Reads(before, source, steps, i, j, host, matches)
      {
        CoveredReads(before, source, steps, i, j, host, matches);
      }
    } else {
      var steps, i, j := MissedRead(before, source, host, matches);
    }
  }

  /** And no reader finds a match if and only if neither bucket holds one
      before or after. */
  lemma NoFalseRead<V(!new)>(before: map<Key, V>, source: map<Key, V>, host: Key, matches: V -> bool)
    ensures NeverReads(before, source, host, matches) <==>
      && !Hit(before, host, matches) && !Hit(before, GLOBAL, matches)
      && !Hit(source, host, matches) && !Hit(source, GLOBAL, matches)
  {
    if || Hit(before, host, matches) || Hit(before, GLOBAL, matches)
       || Hit(source, host, matches) || Hit(source, GLOBAL, matches) {
      var steps := CompleteRun(before, source, []);
      SwapInstallsSource(before, source, steps);
      assert steps[..0] == [];
      assert || Reads(before, source, steps, 0, 0, host, matches)
             || Reads(before, source, steps, |steps|, |steps|, host, matches);
    } else {
      forall steps: seq<Step>, i: nat, j: nat | SwapRun(before, source, steps) && i <= j <= |steps|
        ensures !Reads(before, source, steps, i, j, host, matches)
      {
        BucketsOldOrNew(before, source, steps, i, host);
        BucketsOldOrNew(before, source, steps, j, GLOBAL);
      }
    }
  }
}
