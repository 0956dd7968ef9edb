/**
 Rule synchronisation between the main node and a worker
 (waf-cluster/src/sync/rules.rs, waf-engine/src/rules/registry.rs).

 The main node keeps the last changes in a ring buffer; a worker reports its
 version and receives the changes since then, or a snapshot.  The reference is
 the whole history of changes, replayed on the rules the main node started with.
 */
module RuleSync {
  import opened Basics
  import opened RuleIndex

  /** `RuleChange`; `rule` is what `rule_json` holds. */
  datatype Change = Upsert(ruleId: string, rule: Option<Rule>) | Delete(ruleId: string)

  datatype Response = Incremental(version: nat, changes: seq<Change>) | Full(version: nat, snapshot: seq<Rule>)

  // ---------------------------------------------------------------------------
  // Replaying changes
  // ---------------------------------------------------------------------------

  function Applied(rules: Rules, c: Change): Rules {
    match c
    case Delete(id) => rules - {id}
    case Upsert(_, Some(r)) => rules[r.id := r]
    case Upsert(_, None) => rules
  }

  function Replay(rules: Rules, cs: seq<Change>): Rules {
    if cs == [] then rules else Applied(Replay(rules, cs[..|cs| - 1]), cs[|cs| - 1])
  }

  /** The rules after the first `v` changes. */
  function RulesAt(start: Rules, hist: seq<Change>, v: nat): Rules
    requires v <= |hist|
  {
    Replay(start, hist[..v])
  }

  predicate Touches(c: Change, id: string) {
    match c
    case Delete(x) => x == id
    case Upsert(_, Some(r)) => r.id == id
    case Upsert(_, None) => false
  }

  predicate Touched(cs: seq<Change>, id: string) {
    cs != [] && (Touches(cs[|cs| - 1], id) || Touched(cs[..|cs| - 1], id))
  }

  function Look(rules: Rules, id: string): Option<Rule> {
    if id in rules then Some(rules[id]) else None
  }

  lemma LookAll(a: Rules, b: Rules)
    requires forall id: string :: Look(a, id) == Look(b, id)
    ensures a == b
  {
    assert forall id <- a :: Look(a, id) == Some(a[id]);
    assert forall id <- b :: Look(b, id) == Some(b[id]);
  }

  lemma {:induction false} ReplayConcat(rules: Rules, a: seq<Change>, b: seq<Change>)
    ensures Replay(rules, a + b) == Replay(Replay(rules, a), b)
    decreases |b|
  {
    if b == [] {
      assert a + b == a;
    } else {
      assert (a + b)[..|a + b| - 1] == a + b[..|b| - 1];
      ReplayConcat(rules, a, b[..|b| - 1]);
    }
  }

  lemma ReplaySplit(start: Rules, hist: seq<Change>, v: nat)
    requires v <= |hist|
    ensures Replay(start, hist) == Replay(RulesAt(start, hist, v), hist[v..])
  {
    assert hist == hist[..v] + hist[v..];
    ReplayConcat(start, hist[..v], hist[v..]);
  }

  /** What a rule is after a replay depends on the start only if no change touches it. */
  lemma {:induction false} ReplayForgets(a: Rules, b: Rules, cs: seq<Change>, id: string)
    ensures Touched(cs, id) || Look(a, id) == Look(b, id) ==> Look(Replay(a, cs), id) == Look(Replay(b, cs), id)
    ensures !Touched(cs, id) ==> Look(Replay(a, cs), id) == Look(a, id) && Look(Replay(b, cs), id) == Look(b, id)
    decreases |cs|
  {
    if cs != [] {
      ReplayForgets(a, b, cs[..|cs| - 1], id);
    }
  }

  /** `c` sets or deletes the rule `id`. */
  predicate Writes(c: Change, id: string) {
    c == Delete(id) || (c.Upsert? && c.rule.Some? && c.rule.value.id == id)
  }

  lemma WriteDecides(rules: Rules, c: Change, id: string)
    ensures Look(Applied(rules, c), id)
         == if !Writes(c, id) then Look(rules, id) else if c.Upsert? then c.rule else None
  {
  }

  /** The last change that sets or deletes a rule decides what is there: that very rule,
      or none. */
  lemma {:induction false} LastChangeDecides(rules: Rules, cs: seq<Change>, i: nat, id: string)
    requires i < |cs| && Writes(cs[i], id) && forall k :: i < k < |cs| ==> !Writes(cs[k], id)
    ensures Look(Replay(rules, cs), id) == if cs[i].Upsert? then cs[i].rule else None
    decreases |cs|
  {
    var n := |cs| - 1;
    WriteDecides(Replay(rules, cs[..n]), cs[n], id);
    if i < n {
      LastChangeDecides(rules, cs[..n], i, id);
    }
  }

  /** Without such a change it stays as it was. */
  lemma {:induction false} NoChangeDecides(rules: Rules, cs: seq<Change>, id: string)
    requires forall k :: 0 <= k < |cs| ==> !Writes(cs[k], id)
    ensures Look(Replay(rules, cs), id) == Look(rules, id)
    decreases |cs|
  {
    if cs != [] {
      var n := |cs| - 1;
      WriteDecides(Replay(rules, cs[..n]), cs[n], id);
      NoChangeDecides(rules, cs[..n], id);
    }
  }

  lemma {:induction false} TouchedConcat(a: seq<Change>, b: seq<Change>, id: string)
    ensures Touched(a + b, id) <==> Touched(a, id) || Touched(b, id)
    decreases |b|
  {
    if b == [] {
      assert a + b == a;
    } else {
      assert (a + b)[..|a + b| - 1] == a + b[..|b| - 1];
      TouchedConcat(a, b[..|b| - 1], id);
    }
  }

  /** Two starts replay to the same rules exactly if every rule on which they
      differ is touched. */
  lemma SameReplay(a: Rules, b: Rules, cs: seq<Change>)
    ensures Replay(a, cs) == Replay(b, cs) <==> forall id: string :: Look(a, id) != Look(b, id) ==> Touched(cs, id)
  {
    forall id: string
      ensures Touched(cs, id) || Look(a, id) == Look(b, id) ==> Look(Replay(a, cs), id) == Look(Replay(b, cs), id)
      ensures !Touched(cs, id) ==> Look(Replay(a, cs), id) == Look(a, id) && Look(Replay(b, cs), id) == Look(b, id)
    {
      ReplayForgets(a, b, cs, id);
    }
    if forall id: string :: Look(a, id) != Look(b, id) ==> Touched(cs, id) {
      LookAll(Replay(a, cs), Replay(b, cs));
    }
  }

  // ---------------------------------------------------------------------------
  // The changelog
  // ---------------------------------------------------------------------------

  type Log = seq<(nat, Change)>

  /** The buffer holds the newest changes of the history, each with its version.
      A capacity of zero still keeps one. */
  ghost predicate LogOf(log: Log, maxRetained: nat, version: nat, hist: seq<Change>) {
    && version == |hist|
    && |log| == Min(if maxRetained == 0 then 1 else maxRetained, |hist|)
    && forall i :: 0 <= i < |log| ==> log[i] == (version - |log| + 1 + i, hist[version - |log| + i])
  }

  /** `iter().filter(v > from).map(change)` */
  function NewerThan(log: Log, from: nat): seq<Change> {
    if log == [] then []
    else if log[0].0 > from then [log[0].1] + NewerThan(log[1..], from)
    else NewerThan(log[1..], from)
  }

  function DeltaSince(log: Log, from: nat): Option<seq<Change>> {
    if log == [] then Some([])
    else if from < log[0].0 then None
    else Some(NewerThan(log, from))
  }

  /** `handle_sync_request`; `rules` is the main node's current list. */
  function HandleSyncRequest(log: Log, version: nat, from: nat, rules: seq<Rule>): Response {
    match DeltaSince(log, from)
    case Some(changes) => Incremental(version, changes)
    case None => Full(version, rules)
  }

  /** Consecutive versions: entry `i` has version `first + i` and change `cs[i]`. */
  ghost predicate Numbered(log: Log, first: nat, cs: seq<Change>) {
    |log| == |cs| && forall i :: 0 <= i < |log| ==> log[i] == (first + i, cs[i])
  }

  lemma {:induction false} NewerIsSuffix(log: Log, first: nat, cs: seq<Change>, from: nat)
    requires Numbered(log, first, cs)
    ensures NewerThan(log, from)
         == if from < first then cs else if from - first + 1 <= |cs| then cs[from - first + 1..] else []
    decreases |log|
  {
    if log != [] {
      NewerIsSuffix(log[1..], first + 1, cs[1..], from);
      assert cs == [cs[0]] + cs[1..];
    }
  }

  /** What a worker at version `from` is sent: nothing if nothing was ever
      recorded or it is ahead, a snapshot if the buffer no longer reaches back,
      and otherwise exactly the changes it lacks. */
  lemma DeltaIsMissingChanges(log: Log, maxRetained: nat, hist: seq<Change>, from: nat)
    requires LogOf(log, maxRetained, |hist|, hist)
    ensures DeltaSince(log, from) ==
      if hist == [] || from > |hist| then Some([])
      else if from <= |hist| - |log| then None
      else Some(hist[from..])
  {
    if hist != [] {
      var first := |hist| - |log|;
      NewerIsSuffix(log, first + 1, hist[first..], from);
      assert first < from <= |hist| ==> hist[first..][from - first..] == hist[from..];
    }
  }

  class RuleChangelog {
    var changes: Log
    const maxRetained: nat
    var currentVersion: nat

    constructor (maxRetained: nat)
      ensures this.maxRetained == maxRetained && LogOf(changes, maxRetained, currentVersion, [])
    {
      this.maxRetained, changes, currentVersion := maxRetained, [], 0;
    }

    method RecordChange(c: Change, ghost hist: seq<Change>)
      requires LogOf(changes, maxRetained, currentVersion, hist)
      modifies this
      ensures LogOf(changes, maxRetained, currentVersion, hist + [c])
      ensures changes == Pushed(old(changes), maxRetained, old(currentVersion) + 1, c)
    {
      currentVersion := currentVersion + 1;
      PushKeepsLog(changes, maxRetained, hist, c);
      Push(currentVersion, c);
    }

    method Push(version: nat, c: Change)
      modifies this`changes
      ensures changes == Pushed(old(changes), maxRetained, version, c)
    {
      if |changes| >= maxRetained {
        if changes != [] { changes := changes[1..]; }
      }
      changes := changes + [(version, c)];
    }

    method HandleRequest(from: nat, rules: seq<Rule>) returns (r: Response)
      ensures r == HandleSyncRequest(changes, currentVersion, from, rules)
    {
      if |changes| == 0 { return Incremental(currentVersion, []); }
      if from < changes[0].0 { return Full(currentVersion, rules); }
      var delta: seq<Change> := [];
      for i := 0 to |changes|
        invariant delta + NewerThan(changes[i..], from) == NewerThan(changes, from)
      {
        assert changes[i..][1..] == changes[i + 1..];
        if changes[i].0 > from {
          delta := delta + [changes[i].1];
        }
      }
      assert delta + [] == delta;
      r := Incremental(currentVersion, delta);
    }
  }

  function Pushed(log: Log, maxRetained: nat, version: nat, c: Change): Log {
    (if |log| >= maxRetained && log != [] then log[1..] else log) + [(version, c)]
  }

  lemma PushKeepsLog(log: Log, maxRetained: nat, hist: seq<Change>, c: Change)
    requires LogOf(log, maxRetained, |hist|, hist)
    ensures LogOf(Pushed(log, maxRetained, |hist| + 1, c), maxRetained, |hist| + 1, hist + [c])
  {
  }

  // ---------------------------------------------------------------------------
  // The worker
  // ---------------------------------------------------------------------------

  datatype Replica = Replica(rules: Rules, version: nat)

  /** `clear` followed by inserting a list: the last rule of an id wins. */
  function Loaded(list: seq<Rule>): Rules {
    if list == [] then map[] else var r := list[|list| - 1]; Loaded(list[..|list| - 1])[r.id := r]
  }

  /** `apply_sync_response` when everything can be read. */
  function Synced(w: Replica, resp: Response): Replica {
    match resp
    case Incremental(v, changes) => Replica(Replay(w.rules, changes), v)
    case Full(v, list) => Replica(Loaded(list), v)
  }

  /** What the worker can deserialize. */
  type Reader = Rule -> bool

  predicate Unreadable(readable: Reader, c: Change) {
    c.Upsert? && c.rule.Some? && !readable(c.rule.value)
  }

  /** How many changes are applied before one cannot be read. */
  function ReadablePrefix(readable: Reader, cs: seq<Change>): (n: nat)
    ensures n <= |cs| && (n < |cs| ==> cs[n].Upsert? && cs[n].rule.Some? && !readable(cs[n].rule.value))
    ensures forall i :: 0 <= i < n ==> !(cs[i].Upsert? && cs[i].rule.Some? && !readable(cs[i].rule.value))
  {
    if cs == [] || Unreadable(readable, cs[0]) then 0 else 1 + ReadablePrefix(readable, cs[1..])
  }

  predicate AllReadable(readable: Reader, list: seq<Rule>) {
    forall r <- list :: readable(r)
  }

  /** How often `insert` and `remove` raise the version while changes are replayed. */
  function Bumps(rules: Rules, cs: seq<Change>): (n: nat)
    ensures n <= |cs|
  {
    if cs == [] then 0
    else
      var before, c := cs[..|cs| - 1], cs[|cs| - 1];
      Bumps(rules, before) +
      match c
      case Delete(id) => if id in Replay(rules, before) then 1 else 0
      case Upsert(_, r) => if r.Some? then 1 else 0
  }

  /** `apply_sync_response` in general: the new replica and whether it succeeded. */
  function Attempted(w: Replica, resp: Response, readable: Reader): (Replica, bool) {
    match resp
    case Incremental(v, cs) =>
      var k := ReadablePrefix(readable, cs);
      if k == |cs| then (Synced(w, resp), true)
      else (Replica(Replay(w.rules, cs[..k]), w.version + Bumps(w.rules, cs[..k])), false)
    case Full(v, list) =>
      if AllReadable(readable, list) then (Synced(w, resp), true) else (w, false)
  }

  /** The rules under `ids`. */
  function Fetched(rules: Rules, ids: seq<string>): (r: seq<Rule>)
    requires forall i :: 0 <= i < |ids| ==> ids[i] in rules
    ensures |r| == |ids| && forall i :: 0 <= i < |ids| ==> r[i] == rules[ids[i]]
  {
    seq(|ids|, i requires 0 <= i < |ids| => rules[ids[i]])
  }

  ghost predicate Fetches(rules: Rules, ids: seq<string>, r: seq<Rule>) {
    NoDup(ids) && |r| == |ids| && forall i :: 0 <= i < |ids| ==> ids[i] in rules && r[i] == rules[ids[i]]
  }

  class RuleRegistry {
    var rules: Rules
    var byCategory: Index
    var bySource: Index
    var version: nat

    /** Both indexes list exactly the rules that are there. */
    ghost predicate Valid()
      reads this
    {
      IsIndex(byCategory, rules, CategoryOf) && IsIndex(bySource, rules, SourceOf)
    }

    constructor ()
      ensures Valid() && rules == map[] && version == 0
    {
      rules, byCategory, bySource, version := map[], map[], map[], 0;
    }

    method Insert(rule: Rule)
      requires Valid()
      modifies this
      ensures Valid() && rules == old(rules)[rule.id := rule] && version == old(version) + 1
    {
      InsertKeepsIndex(byCategory, rules, CategoryOf, rule);
      InsertKeepsIndex(bySource, rules, SourceOf, rule);
      if rule.id in rules {
        byCategory := Unlisted(byCategory, rule.id);
        bySource := Unlisted(bySource, rule.id);
      }
      byCategory := Listed(byCategory, rule.category, rule.id);
      bySource := Listed(bySource, rule.source, rule.id);
      rules := rules[rule.id := rule];
      version := version + 1;
    }

    method Remove(id: string) returns (r: Option<Rule>)
      requires Valid()
      modifies this
      ensures Valid() && rules == old(rules) - {id} && r == Look(old(rules), id)
      ensures version == old(version) + if id in old(rules) then 1 else 0
    {
      if id !in rules { return None; }
      RemoveKeepsIndex(byCategory, rules, CategoryOf, id);
      RemoveKeepsIndex(bySource, rules, SourceOf, id);
      r := Some(rules[id]);
      rules := rules - {id};
      byCategory := Unlisted(byCategory, id);
      bySource := Unlisted(bySource, id);
      version := version + 1;
    }

    method Clear()
      modifies this
      ensures Valid() && rules == map[] && version == 0
    {
      rules, byCategory, bySource, version := map[], map[], map[], 0;
    }

    /** The rules of one category, each once; `ids` are their ids. */
    method FilterByCategory(category: string) returns (r: seq<Rule>, ghost ids: seq<string>)
      requires Valid()
      ensures Fetches(rules, ids, r)
      ensures forall id: string :: id in ids <==> id in rules && rules[id].category == category
    {
      assert Exact(byCategory, rules, CategoryOf, category);
      ids := Entry(byCategory, category);
      r := if category in byCategory then Fetched(rules, byCategory[category]) else [];
    }

    method FilterBySource(source: string) returns (r: seq<Rule>, ghost ids: seq<string>)
      requires Valid()
      ensures Fetches(rules, ids, r)
      ensures forall id: string :: id in ids <==> id in rules && rules[id].source == source
    {
      assert Exact(bySource, rules, SourceOf, source);
      ids := Entry(bySource, source);
      r := if source in bySource then Fetched(rules, bySource[source]) else [];
    }

    /** Stops at the first rule that cannot be read, with the changes before it
        applied. */
    method ApplyRuleChanges(changes: seq<Change>, readable: Reader) returns (ok: bool)
      requires Valid()
      modifies this
      ensures Valid() && ok == (ReadablePrefix(readable, changes) == |changes|)
      ensures var done := changes[..ReadablePrefix(readable, changes)];
        rules == Replay(old(rules), done) && version == old(version) + Bumps(old(rules), done)
    {
      for i := 0 to |changes|
        invariant Valid() && i <= ReadablePrefix(readable, changes)
        invariant rules == Replay(old(rules), changes[..i]) && version == old(version) + Bumps(old(rules), changes[..i])
      {
        assert changes[..i + 1][..i] == changes[..i];
        match changes[i] {
          case Delete(id) =>
            var _ := Remove(id);
          case Upsert(_, rule) =>
            if rule.Some? {
              if !readable(rule.value) {
                return false;
              }
              Insert(rule.value);
            }
        }
      }
      return true;
    }

    /** The snapshot is decoded before anything is cleared. */
    method ApplyFullSnapshot(list: seq<Rule>, readable: Reader) returns (ok: bool)
      requires Valid()
      modifies this
      ensures Valid() && ok == forall r <- list :: readable(r)
      ensures if ok then rules == Loaded(list) else rules == old(rules) && version == old(version)
    {
      if !AllReadable(readable, list) {
        return false;
      }
      Clear();
      for i := 0 to |list|
        invariant Valid() && rules == Loaded(list[..i])
      {
        assert list[..i + 1][..i] == list[..i];
        Insert(list[i]);
      }
      assert list[..|list|] == list;
      return true;
    }

    method ApplySyncResponse(resp: Response, readable: Reader) returns (ok: bool)
      requires Valid()
      modifies this
      ensures Valid() && (Replica(rules, version), ok) == Attempted(old(Replica(rules, version)), resp, readable)
    {
      match resp {
        case Incremental(_, changes) =>
          assert changes[..|changes|] == changes;
          ok := ApplyRuleChanges(changes, readable);
        case Full(_, list) =>
          ok := ApplyFullSnapshot(list, readable);
      }
      if ok {
        version := resp.version;
      }
    }
  }

  /** `list` is a listing, in some order, of `rules`. */
  ghost predicate Lists(list: seq<Rule>, rules: Rules) {
    && (forall r <- list :: r.id in rules && rules[r.id] == r)
    && (forall id <- rules :: rules[id] in list && rules[id].id == id)
  }

  lemma {:induction false} LoadedHas(list: seq<Rule>, rules: Rules)
    requires forall r <- list :: r.id in rules && rules[r.id] == r
    ensures forall id <- Loaded(list) :: id in rules && Loaded(list)[id] == rules[id]
    ensures forall r <- list :: r.id in Loaded(list)
    decreases |list|
  {
    if list != [] {
      LoadedHas(list[..|list| - 1], rules);
      assert list == list[..|list| - 1] + [list[|list| - 1]];
    }
  }

  lemma LoadedListing(list: seq<Rule>, rules: Rules)
    requires Lists(list, rules)
    ensures Loaded(list) == rules
  {
    LoadedHas(list, rules);
  }

  // ---------------------------------------------------------------------------
  // One round trip
  // ---------------------------------------------------------------------------

  /** Replaying the changes after its version would bring the worker up to date. */
  ghost predicate CanCatchUp(start: Rules, hist: seq<Change>, w: Replica) {
    w.version <= |hist| && Replay(w.rules, hist[w.version..]) == Replay(start, hist)
  }

  /**
   An undisturbed round trip brings any worker that can catch up exactly to the
   main node's rules and version, whether it gets changes or a snapshot.
   */
  lemma RoundTripConverges(start: Rules, hist: seq<Change>, log: Log, maxRetained: nat, list: seq<Rule>, w: Replica)
    requires LogOf(log, maxRetained, |hist|, hist) && Lists(list, Replay(start, hist)) && CanCatchUp(start, hist, w)
    ensures Synced(w, HandleSyncRequest(log, |hist|, w.version, list)) == Replica(Replay(start, hist), |hist|)
  {
    DeltaIsMissingChanges(log, maxRetained, hist, w.version);
    LoadedListing(list, Replay(start, hist));
  }

  /** A worker that never synced ends with the main node's rules exactly if a
      change was ever recorded or there was nothing to copy: before the first
      change it is told it is up to date. */
  lemma FreshWorker(start: Rules, hist: seq<Change>, log: Log, maxRetained: nat, list: seq<Rule>)
    requires LogOf(log, maxRetained, |hist|, hist) && Lists(list, Replay(start, hist))
    ensures Synced(Replica(map[], 0), HandleSyncRequest(log, |hist|, 0, list)).rules == Replay(start, hist)
       <==> hist != [] || start == map[]
  {
    DeltaIsMissingChanges(log, maxRetained, hist, 0);
    LoadedListing(list, Replay(start, hist));
  }

  /** A worker ahead of the main node, as after a failover to a node with a
      younger changelog, keeps its rules and takes over the lower version. */
  lemma WorkerAhead(start: Rules, hist: seq<Change>, log: Log, maxRetained: nat, list: seq<Rule>, w: Replica)
    requires LogOf(log, maxRetained, |hist|, hist) && w.version > |hist|
    ensures Synced(w, HandleSyncRequest(log, |hist|, w.version, list)) == Replica(w.rules, |hist|)
  {
    DeltaIsMissingChanges(log, maxRetained, hist, w.version);
  }

  /** Some of the missing changes applied, and a version that is not ahead. */
  lemma PartCanCatchUp(start: Rules, hist: seq<Change>, w: Replica, k: nat, v: nat)
    requires CanCatchUp(start, hist, w) && w.version + k <= |hist| && v <= w.version + k
    ensures CanCatchUp(start, hist, Replica(Replay(w.rules, hist[w.version..w.version + k]), v))
  {
    var cs, rest := hist[w.version..w.version + k], hist[w.version + k..];
    assert hist[w.version..] == cs + rest;
    ReplayConcat(w.rules, cs, rest);
    CatchUpFromEarlier(start, hist, Replica(Replay(w.rules, cs), w.version + k), v);
  }

  // ---------------------------------------------------------------------------
  // Catching up, rule by rule
  // ---------------------------------------------------------------------------

  lemma CatchUpFromEarlier(start: Rules, hist: seq<Change>, w: Replica, base: nat)
    requires base <= w.version && CanCatchUp(start, hist, w)
    ensures Replay(w.rules, hist[base..]) == Replay(start, hist)
  {
    var mid := RulesAt(start, hist, w.version);
    ReplaySplit(start, hist, w.version);
    ReplaySplit(start, hist, base);
    SameReplay(w.rules, mid, hist[w.version..]);
    var old' := RulesAt(start, hist, base);
    assert hist[base..] == hist[base..w.version] + hist[w.version..];
    assert hist[..w.version] == hist[..base] + hist[base..w.version];
    ReplayConcat(start, hist[..base], hist[base..w.version]);
    forall id: string | Look(w.rules, id) != Look(old', id) ensures Touched(hist[base..], id) {
      TouchedConcat(hist[base..w.version], hist[w.version..], id);
      ReplayForgets(old', old', hist[base..w.version], id);
    }
    SameReplay(w.rules, old', hist[base..]);
  }

  lemma CatchUpKept(start: Rules, hist: seq<Change>, c: Change, w: Replica)
    requires CanCatchUp(start, hist, w)
    ensures CanCatchUp(start, hist + [c], w)
  {
    assert (hist + [c])[w.version..] == hist[w.version..] + [c];
    ReplayConcat(w.rules, hist[w.version..], [c]);
    ReplayConcat(start, hist, [c]);
  }

  /** Applying the changes from `base` on does no harm to these rules: wherever
      they differ from those of version `base`, a change from there on follows. */
  ghost predicate Harmless(start: Rules, hist: seq<Change>, rules: Rules, base: nat)
    requires base <= |hist|
  {
    forall id: string :: Look(rules, id) != Look(RulesAt(start, hist, base), id) ==> Touched(hist[base..], id)
  }

  lemma HarmlessIsReplay(start: Rules, hist: seq<Change>, rules: Rules, base: nat)
    requires base <= |hist|
    ensures Replay(rules, hist[base..]) == Replay(start, hist) <==> Harmless(start, hist, rules, base)
  {
    ReplaySplit(start, hist, base);
    SameReplay(rules, RulesAt(start, hist, base), hist[base..]);
  }

  /** A worker can catch up exactly if every rule in which it differs from the
      version it reports is still to be changed. */
  lemma CatchUpIffHarmless(start: Rules, hist: seq<Change>, w: Replica)
    requires w.version <= |hist|
    ensures CanCatchUp(start, hist, w) <==> Harmless(start, hist, w.rules, w.version)
  {
    HarmlessIsReplay(start, hist, w.rules, w.version);
  }

  /**
   Which changes do no harm to which worker, whatever it holds and reports: after
   the changes from `base` to `to` it can catch up if and only if every rule in
   which it differs from version `base` is touched from there on.
   */
  lemma DeltaIffHarmless(start: Rules, hist: seq<Change>, w: Replica, base: nat, to: nat)
    requires base <= to <= |hist|
    ensures CanCatchUp(start, hist, Synced(w, Incremental(to, hist[base..to])))
       <==> Harmless(start, hist, w.rules, base)
  {
    assert hist[base..] == hist[base..to] + hist[to..];
    ReplayConcat(w.rules, hist[base..to], hist[to..]);
    HarmlessIsReplay(start, hist, w.rules, base);
  }

  /** The same for the first `k` changes from `base` on, with the version `at` in the
      end: every rule is as in version `at`, either by the last of these changes that
      touched it or, if none did, as the worker had it, unless it is touched again
      after `at`. */
  ghost predicate PartHarmless(start: Rules, hist: seq<Change>, rules: Rules, base: nat, k: nat, at: nat)
    requires base + k <= |hist| && at <= |hist|
  {
    forall id: string :: !Touched(hist[at..], id) ==>
      Look(RulesAt(start, hist, at), id)
      == if Touched(hist[base..base + k], id) then Look(RulesAt(start, hist, base + k), id) else Look(rules, id)
  }

  lemma PartIffHarmless(start: Rules, hist: seq<Change>, rules: Rules, base: nat, k: nat, at: nat)
    requires base + k <= |hist| && at <= |hist|
    ensures CanCatchUp(start, hist, Replica(Replay(rules, hist[base..base + k]), at))
       <==> PartHarmless(start, hist, rules, base, k, at)
  {
    var done := hist[base..base + k];
    CatchUpIffHarmless(start, hist, Replica(Replay(rules, done), at));
    ReplayConcat(start, hist[..base], done);
    assert hist[..base] + done == hist[..base + k];
    forall id: string
      ensures Look(Replay(rules, done), id)
           == if Touched(done, id) then Look(RulesAt(start, hist, base + k), id) else Look(rules, id)
    {
      ReplayForgets(rules, RulesAt(start, hist, base), done, id);
    }
  }

  /** How many changes of a response are applied, and the version it leaves. */
  function AppliedTo(w: Replica, to: nat, cs: seq<Change>, readable: Reader): (nat, nat) {
    var k := ReadablePrefix(readable, cs);
    (k, if k == |cs| then to else w.version + Bumps(w.rules, cs[..k]))
  }

  /**
   Applying changes that may not all be readable, to any worker: it can catch up
   afterwards if and only if the version it is left with exists and the changes that
   were applied are harmless for that version.
   */
  lemma FailedSyncIff(start: Rules, hist: seq<Change>, w: Replica, base: nat, to: nat, readable: Reader)
    requires base <= to <= |hist|
    ensures var (k, at) := AppliedTo(w, to, hist[base..to], readable);
      CanCatchUp(start, hist, Attempted(w, Incremental(to, hist[base..to]), readable).0)
      <==> at <= |hist| && PartHarmless(start, hist, w.rules, base, k, at)
  {
    var cs := hist[base..to];
    var (k, at) := AppliedTo(w, to, cs, readable);
    assert cs[..k] == hist[base..base + k] && cs[..|cs|] == cs;
    if at <= |hist| {
      PartIffHarmless(start, hist, w.rules, base, k, at);
    }
  }

  /** In particular changes it already has, or has in part. */
  lemma EarlierIsHarmless(start: Rules, hist: seq<Change>, w: Replica, base: nat)
    requires base <= w.version && CanCatchUp(start, hist, w)
    ensures Harmless(start, hist, w.rules, base)
  {
    CatchUpFromEarlier(start, hist, w, base);
    HarmlessIsReplay(start, hist, w.rules, base);
  }

  /**
   For a worker that holds exactly the rules of a version `v` below `base`: every
   rule that differs between the two versions has to be touched again.
   */
  lemma DeltaAcrossGap(start: Rules, hist: seq<Change>, v: nat, base: nat, to: nat)
    requires v < base <= to <= |hist|
    ensures CanCatchUp(start, hist, Synced(Replica(RulesAt(start, hist, v), v), Incremental(to, hist[base..to])))
       <==> forall id: string :: Look(RulesAt(start, hist, v), id) != Look(RulesAt(start, hist, base), id)
              ==> Touched(hist[base..], id)
  {
    DeltaIffHarmless(start, hist, Replica(RulesAt(start, hist, v), v), base, to);
  }

  /** An undisturbed round trip brings a worker to the main node's rules if and
      only if it can catch up or its version is no longer in the buffer. */
  lemma RoundTripIff(start: Rules, hist: seq<Change>, log: Log, maxRetained: nat, list: seq<Rule>, w: Replica)
    requires LogOf(log, maxRetained, |hist|, hist) && Lists(list, Replay(start, hist))
    requires hist != [] && w.version <= |hist|
    ensures Synced(w, HandleSyncRequest(log, |hist|, w.version, list)).rules == Replay(start, hist)
       <==> CanCatchUp(start, hist, w) || w.version <= |hist| - |log|
  {
    DeltaIsMissingChanges(log, maxRetained, hist, w.version);
    LoadedListing(list, Replay(start, hist));
  }
}
