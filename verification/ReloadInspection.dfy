/**
 List checks of a request while `reload_all` replaces the lists
 (waf-engine/src/checker.rs).

 The reload swaps the four sets one after the other, each bucket by bucket.  A
 request looks up its host's bucket and the "*" bucket of one set after the other,
 so its eight lookups fall anywhere into the swaps, in order.
 */
module ReloadInspection {
  import opened Basics
  import opened LiveSwap
  import opened RuleSets
  import opened Inspection

  type Reason = Inspection.Phase

  function IpTest(req: Request): seq<IpNet> -> bool {
    nets => AnyContains(nets, req.ip)
  }

  function UrlTest(req: Request): seq<UrlRule> -> bool {
    rules => FirstMatch(rules, req.path).Some?
  }

  /** The steps of the four swaps, in the order of the code. */
  datatype Runs = Runs(allowIps: seq<Step>, blockIps: seq<Step>, allowUrls: seq<Step>, blockUrls: seq<Step>)

  ghost predicate ReloadRuns(before: Lists, after: Lists, r: Runs) {
    && SwapRun(before.allowIps, after.allowIps, r.allowIps)
    && SwapRun(before.blockIps, after.blockIps, r.blockIps)
    && SwapRun(before.allowUrls, after.allowUrls, r.allowUrls)
    && SwapRun(before.blockUrls, after.blockUrls, r.blockUrls)
  }

  /** How far a swap of `len` steps that begins at moment `from` is at moment `m`. */
  function Done(from: nat, len: nat, m: nat): (n: nat)
    ensures n <= len
  {
    if m < from then 0 else Min(m - from, len)
  }

  /** When the swap of list `k` begins. */
  function From(r: Runs, k: nat): nat {
    (if k > 0 then |r.allowIps| else 0) + (if k > 1 then |r.blockIps| else 0) + (if k > 2 then |r.allowUrls| else 0)
  }

  /** The lists at moment `m` of the reload. */
  function ListsAt(before: Lists, after: Lists, r: Runs, m: nat): Lists {
    Lists(
      LiveAt(before.allowIps, after.allowIps, r.allowIps, Done(From(r, 0), |r.allowIps|, m)),
      LiveAt(before.blockIps, after.blockIps, r.blockIps, Done(From(r, 1), |r.blockIps|, m)),
      LiveAt(before.allowUrls, after.allowUrls, r.allowUrls, Done(From(r, 2), |r.allowUrls|, m)),
      LiveAt(before.blockUrls, after.blockUrls, r.blockUrls, Done(From(r, 3), |r.blockUrls|, m)))
  }

  /** List `k` holds a match in the bucket `key`. */
  ghost predicate Holds(l: Lists, k: nat, key: Key, req: Request) {
    match k
    case 0 => Hit(l.allowIps, key, IpTest(req))
    case 1 => Hit(l.blockIps, key, IpTest(req))
    case 2 => Hit(l.allowUrls, key, UrlTest(req))
    case _ => Hit(l.blockUrls, key, UrlTest(req))
  }

  ghost predicate Listed(l: Lists, k: nat, req: Request) {
    Holds(l, k, req.host, req) || Holds(l, k, GLOBAL, req)
  }

  /** The moments of the eight lookups. */
  ghost predicate InOrder(ms: seq<nat>) {
    |ms| == 8 && forall i, j :: 0 <= i <= j < 8 ==> ms[i] <= ms[j]
  }

  /** The request finds a match in list `k`: the host's bucket, else "*". */
  ghost predicate Seen(before: Lists, after: Lists, r: Runs, ms: seq<nat>, k: nat, req: Request)
    requires |ms| == 8 && k < 4
  {
    || Holds(ListsAt(before, after, r, ms[2 * k]), k, req.host, req)
    || Holds(ListsAt(before, after, r, ms[2 * k + 1]), k, GLOBAL, req)
  }

  /** The first list with a match decides. */
  ghost predicate Decides(before: Lists, after: Lists, r: Runs, ms: seq<nat>, k: nat, req: Request)
    requires |ms| == 8 && k < 4
  {
    Seen(before, after, r, ms, k, req) && forall q :: 0 <= q < k ==> !Seen(before, after, r, ms, q, req)
  }

  /** List `k` decides in every order of the swaps and at all moments. */
  ghost predicate AlwaysDecides(before: Lists, after: Lists, k: nat, req: Request)
    requires k < 4
  {
    forall r: Runs, ms: seq<nat> :: ReloadRuns(before, after, r) && InOrder(ms) ==>
      Decides(before, after, r, ms, k, req)
  }

  /** No list decides, ever. */
  ghost predicate NeverDecides(before: Lists, after: Lists, req: Request) {
    forall r: Runs, ms: seq<nat>, k: nat :: ReloadRuns(before, after, r) && InOrder(ms) && k < 4 ==>
      !Seen(before, after, r, ms, k, req)
  }

  // ---------------------------------------------------------------------------
  // With the lists standing still
  // ---------------------------------------------------------------------------

  function ReasonOf(k: nat): Reason {
    match k
    case 0 => IpWhitelist
    case 1 => IpBlacklist
    case 2 => UrlWhitelist
    case _ => UrlBlacklist
  }

  /** The list checks of the pipeline are this, all at one moment. */
  lemma StandingStill(before: Lists, after: Lists, r: Runs, m: nat, k: nat, req: Request)
    requires k < 4
    ensures Decides(before, after, r, seq(8, _ => m), k, req)
       <==> Says(ListDecision(ListsAt(before, after, r, m), req), k == 0 || k == 2, ReasonOf(k))
  {
    var l := ListsAt(before, after, r, m);
    var ms := seq(8, _ => m);
    forall q | 0 <= q < 4 ensures Seen(before, after, r, ms, q, req) == Listed(l, q, req) {
      assert ms[2 * q] == m && ms[2 * q + 1] == m;
    }
    ListedIs(l, req);
  }

  lemma ListedIs(l: Lists, req: Request)
    ensures Listed(l, 0, req) == IpMatches(l.allowIps, req.host, req.ip)
    ensures Listed(l, 1, req) == IpMatches(l.blockIps, req.host, req.ip)
    ensures Listed(l, 2, req) == UrlMatch(l.allowUrls, req.host, req.path).Some?
    ensures Listed(l, 3, req) == UrlMatch(l.blockUrls, req.host, req.path).Some?
  {
  }

  // ---------------------------------------------------------------------------
  // During the reload
  // ---------------------------------------------------------------------------

  ghost predicate CoveredIn(before: Lists, after: Lists, k: nat, req: Request) {
    match k
    case 0 => Covered(before.allowIps, after.allowIps, req.host, IpTest(req))
    case 1 => Covered(before.blockIps, after.blockIps, req.host, IpTest(req))
    case 2 => Covered(before.allowUrls, after.allowUrls, req.host, UrlTest(req))
    case _ => Covered(before.blockUrls, after.blockUrls, req.host, UrlTest(req))
  }

  lemma DoneInOrder(from: nat, len: nat, m: nat, m': nat)
    requires m <= m'
    ensures Done(from, len, m) <= Done(from, len, m')
  {
  }

  lemma CoveredIsSeen(before: Lists, after: Lists, r: Runs, ms: seq<nat>, k: nat, req: Request)
    requires ReloadRuns(before, after, r) && InOrder(ms) && k < 4 && CoveredIn(before, after, k, req)
    ensures Seen(before, after, r, ms, k, req)
  {
    var m, m' := ms[2 * k], ms[2 * k + 1];
    var from := From(r, k);
    match k
    case 0 =>
      DoneInOrder(from, |r.allowIps|, m, m');
      CoveredReads(before.allowIps, after.allowIps, r.allowIps,
        Done(from, |r.allowIps|, m), Done(from, |r.allowIps|, m'), req.host, IpTest(req));
    case 1 =>
      DoneInOrder(from, |r.blockIps|, m, m');
      CoveredReads(before.blockIps, after.blockIps, r.blockIps,
        Done(from, |r.blockIps|, m), Done(from, |r.blockIps|, m'), req.host, IpTest(req));
    case 2 =>
      DoneInOrder(from, |r.allowUrls|, m, m');
      CoveredReads(before.allowUrls, after.allowUrls, r.allowUrls,
        Done(from, |r.allowUrls|, m), Done(from, |r.allowUrls|, m'), req.host, UrlTest(req));
    case 3 =>
      DoneInOrder(from, |r.blockUrls|, m, m');
      CoveredReads(before.blockUrls, after.blockUrls, r.blockUrls,
        Done(from, |r.blockUrls|, m), Done(from, |r.blockUrls|, m'), req.host, UrlTest(req));
  }

  lemma HeldIsOldOrNew(before: Lists, after: Lists, r: Runs, m: nat, k: nat, key: Key, req: Request)
    requires ReloadRuns(before, after, r) && k < 4 && Holds(ListsAt(before, after, r, m), k, key, req)
    ensures Holds(before, k, key, req) || Holds(after, k, key, req)
  {
    var from := From(r, k);
    match k
    case 0 => BucketsOldOrNew(before.allowIps, after.allowIps, r.allowIps, Done(from, |r.allowIps|, m), key);
    case 1 => BucketsOldOrNew(before.blockIps, after.blockIps, r.blockIps, Done(from, |r.blockIps|, m), key);
    case 2 => BucketsOldOrNew(before.allowUrls, after.allowUrls, r.allowUrls, Done(from, |r.allowUrls|, m), key);
    case 3 => BucketsOldOrNew(before.blockUrls, after.blockUrls, r.blockUrls, Done(from, |r.blockUrls|, m), key);
  }

  lemma UnlistedIsUnseen(before: Lists, after: Lists, r: Runs, ms: seq<nat>, k: nat, req: Request)
    requires ReloadRuns(before, after, r) && InOrder(ms) && k < 4
    requires !Listed(before, k, req) && !Listed(after, k, req)
    ensures !Seen(before, after, r, ms, k, req)
  {
    if Holds(ListsAt(before, after, r, ms[2 * k]), k, req.host, req) {
      HeldIsOldOrNew(before, after, r, ms[2 * k], k, req.host, req);
    } else if Holds(ListsAt(before, after, r, ms[2 * k + 1]), k, GLOBAL, req) {
      HeldIsOldOrNew(before, after, r, ms[2 * k + 1], k, GLOBAL, req);
    }
  }

  lemma SomeRuns(before: Lists, after: Lists) returns (r: Runs)
    ensures ReloadRuns(before, after, r)
  {
    var a := CompleteRun(before.allowIps, after.allowIps, []);
    var b := CompleteRun(before.blockIps, after.blockIps, []);
    var c := CompleteRun(before.allowUrls, after.allowUrls, []);
    var d := CompleteRun(before.blockUrls, after.blockUrls, []);
    r := Runs(a, b, c, d);
  }

  /** A request before the reload sees the old lists, one after it the new ones. */
  lemma BeforeAndAfter(before: Lists, after: Lists, r: Runs)
    requires ReloadRuns(before, after, r)
    ensures ListsAt(before, after, r, 0) == before
    ensures ListsAt(before, after, r, From(r, 3) + |r.blockUrls|) == after
  {
    assert r.allowIps[..0] == [] && r.blockIps[..0] == [] && r.allowUrls[..0] == [] && r.blockUrls[..0] == [];
    SwapInstallsSource(before.allowIps, after.allowIps, r.allowIps);
    SwapInstallsSource(before.blockIps, after.blockIps, r.blockIps);
    SwapInstallsSource(before.allowUrls, after.allowUrls, r.allowUrls);
    SwapInstallsSource(before.blockUrls, after.blockUrls, r.blockUrls);
  }

  lemma ListedIsSeen(before: Lists, after: Lists, k: nat, req: Request) returns (r: Runs, ms: seq<nat>)
    requires k < 4 && (Listed(before, k, req) || Listed(after, k, req))
    ensures ReloadRuns(before, after, r) && InOrder(ms) && Seen(before, after, r, ms, k, req)
  {
    r := SomeRuns(before, after);
    BeforeAndAfter(before, after, r);
    var m := if Listed(before, k, req) then 0 else From(r, 3) + |r.blockUrls|;
    ms := seq(8, _ => m);
    assert ms[2 * k] == m && ms[2 * k + 1] == m;
  }

  /** Lookups of list `k` at `i` and `j` steps into its swap, the others where they
      have to be. */
  function Lookups(from: nat, k: nat, i: nat, j: nat): seq<nat> {
    seq(8, n => if n < 2 * k then from else if n == 2 * k then from + i else from + j)
  }

  /** A run of the swap of list `k`, and what a lookup `i` and `j` steps into it finds. */
  ghost predicate SwapOf(before: Lists, after: Lists, k: nat, steps: seq<Step>) {
    match k
    case 0 => SwapRun(before.allowIps, after.allowIps, steps)
    case 1 => SwapRun(before.blockIps, after.blockIps, steps)
    case 2 => SwapRun(before.allowUrls, after.allowUrls, steps)
    case _ => SwapRun(before.blockUrls, after.blockUrls, steps)
  }

  ghost predicate ReadsOf(before: Lists, after: Lists, k: nat, steps: seq<Step>, i: nat, j: nat, req: Request)
    requires i <= |steps| && j <= |steps|
  {
    match k
    case 0 => Reads(before.allowIps, after.allowIps, steps, i, j, req.host, IpTest(req))
    case 1 => Reads(before.blockIps, after.blockIps, steps, i, j, req.host, IpTest(req))
    case 2 => Reads(before.allowUrls, after.allowUrls, steps, i, j, req.host, UrlTest(req))
    case _ => Reads(before.blockUrls, after.blockUrls, steps, i, j, req.host, UrlTest(req))
  }

  lemma MissedIn(before: Lists, after: Lists, k: nat, req: Request) returns (steps: seq<Step>, i: nat, j: nat)
    requires k < 4 && !CoveredIn(before, after, k, req)
    ensures SwapOf(before, after, k, steps) && i <= j <= |steps| && !ReadsOf(before, after, k, steps, i, j, req)
  {
    match k
    case 0 => steps, i, j := MissedRead(before.allowIps, after.allowIps, req.host, IpTest(req));
    case 1 => steps, i, j := MissedRead(before.blockIps, after.blockIps, req.host, IpTest(req));
    case 2 => steps, i, j := MissedRead(before.allowUrls, after.allowUrls, req.host, UrlTest(req));
    case 3 => steps, i, j := MissedRead(before.blockUrls, after.blockUrls, req.host, UrlTest(req));
  }

  function StepsOf(r: Runs, k: nat): seq<Step> {
    match k
    case 0 => r.allowIps
    case 1 => r.blockIps
    case 2 => r.allowUrls
    case _ => r.blockUrls
  }

  lemma WithSteps(before: Lists, after: Lists, r: Runs, k: nat, steps: seq<Step>) returns (r': Runs)
    requires ReloadRuns(before, after, r) && k < 4 && SwapOf(before, after, k, steps)
    ensures ReloadRuns(before, after, r') && StepsOf(r', k) == steps
    ensures forall q :: 0 <= q < 4 && q != k ==> StepsOf(r', q) == StepsOf(r, q)
  {
    match k
    case 0 => r' := r.(allowIps := steps);
    case 1 => r' := r.(blockIps := steps);
    case 2 => r' := r.(allowUrls := steps);
    case 3 => r' := r.(blockUrls := steps);
  }

  lemma HoldsIn(before: Lists, after: Lists, r: Runs, k: nat, i: nat, key: Key, req: Request)
    requires k < 4 && i <= |StepsOf(r, k)|
    ensures Holds(ListsAt(before, after, r, From(r, k) + i), k, key, req)
         == match k
            case 0 => Hit(LiveAt(before.allowIps, after.allowIps, r.allowIps, i), key, IpTest(req))
            case 1 => Hit(LiveAt(before.blockIps, after.blockIps, r.blockIps, i), key, IpTest(req))
            case 2 => Hit(LiveAt(before.allowUrls, after.allowUrls, r.allowUrls, i), key, UrlTest(req))
            case _ => Hit(LiveAt(before.blockUrls, after.blockUrls, r.blockUrls, i), key, UrlTest(req))
  {
  }

  /** What a request sees of list `k` is what a reader of that swap reads. */
  lemma SeenIsRead(before: Lists, after: Lists, r: Runs, ms: seq<nat>, k: nat, i: nat, j: nat, req: Request)
    requires |ms| == 8 && k < 4 && i <= |StepsOf(r, k)| && j <= |StepsOf(r, k)|
    requires ms[2 * k] == From(r, k) + i && ms[2 * k + 1] == From(r, k) + j
    ensures Seen(before, after, r, ms, k, req) == ReadsOf(before, after, k, StepsOf(r, k), i, j, req)
  {
    HoldsIn(before, after, r, k, i, req.host, req);
    HoldsIn(before, after, r, k, j, GLOBAL, req);
  }

  lemma UncoveredIsMissed(before: Lists, after: Lists, k: nat, req: Request) returns (r: Runs, ms: seq<nat>)
    requires k < 4 && !CoveredIn(before, after, k, req)
    ensures ReloadRuns(before, after, r) && InOrder(ms) && !Seen(before, after, r, ms, k, req)
  {
    var steps, i, j := MissedIn(before, after, k, req);
    r := SomeRuns(before, after);
    r := WithSteps(before, after, r, k, steps);
    ms := Lookups(From(r, k), k, i, j);
    SeenIsRead(before, after, r, ms, k, i, j, req);
  }

  /**
   One list decides a request at every moment of a reload, in whatever order the
   buckets are swapped, if and only if its match is covered and no list checked
   before it has one, in the old rules or in the new.  So an address that the same
   bucket of the blacklist blocks before and after, and that neither whitelist
   allows, is blocked throughout.
   */
  lemma DecidedThroughout(before: Lists, after: Lists, k: nat, req: Request)
    requires k < 4
    ensures AlwaysDecides(before, after, k, req) <==>
      && CoveredIn(before, after, k, req)
      && forall q :: 0 <= q < k ==> !Listed(before, q, req) && !Listed(after, q, req)
  {
    if !CoveredIn(before, after, k, req) {
      var r, ms := UncoveredIsMissed(before, after, k, req);
      assert !Decides(before, after, r, ms, k, req);
    } else if q :| 0 <= q < k && (Listed(before, q, req) || Listed(after, q, req)) {
      var r, ms := ListedIsSeen(before, after, q, req);
      assert !Decides(before, after, r, ms, k, req);
    } else {
      forall r: Runs, ms: seq<nat> | ReloadRuns(before, after, r) && InOrder(ms)
        ensures Decides(before, after, r, ms, k, req)
      {
        CoveredIsSeen(before, after, r, ms, k, req);
        forall q | 0 <= q < k ensures !Seen(before, after, r, ms, q, req) {
          UnlistedIsUnseen(before, after, r, ms, q, req);
        }
      }
    }
  }

  /** And the lists have no say at any moment if and only if neither the old rules
      nor the new match. */
  lemma UndecidedThroughout(before: Lists, after: Lists, req: Request)
    ensures NeverDecides(before, after, req)
       <==> forall k :: 0 <= k < 4 ==> !Listed(before, k, req) && !Listed(after, k, req)
  {
    if k :| 0 <= k < 4 && (Listed(before, k, req) || Listed(after, k, req)) {
      var r, ms := ListedIsSeen(before, after, k, req);
    } else {
      forall r: Runs, ms: seq<nat>, k: nat | ReloadRuns(before, after, r) && InOrder(ms) && k < 4
        ensures !Seen(before, after, r, ms, k, req)
      {
        UnlistedIsUnseen(before, after, r, ms, k, req);
      }
    }
  }

  // ---------------------------------------------------------------------------
  // The outcome, whichever list brings it about
  // ---------------------------------------------------------------------------

  /** Whether the request is allowed or denied, from what it found in the four lists. */
  function Outcome4(ipAllowed: bool, ipBlocked: bool, urlAllowed: bool, urlBlocked: bool): Option<bool> {
    if ipAllowed then Some(true)
    else if ipBlocked then Some(false)
    else if urlAllowed then Some(true)
    else if urlBlocked then Some(false)
    else None
  }

  ghost function OutcomeAt(before: Lists, after: Lists, r: Runs, ms: seq<nat>, req: Request): Option<bool>
    requires |ms| == 8
  {
    Outcome4(Seen(before, after, r, ms, 0, req), Seen(before, after, r, ms, 1, req),
             Seen(before, after, r, ms, 2, req), Seen(before, after, r, ms, 3, req))
  }

  /** That is the outcome of the list checks, if all is looked up at one moment. */
  lemma OutcomeStandingStill(before: Lists, after: Lists, r: Runs, m: nat, req: Request)
    ensures var d := ListDecision(ListsAt(before, after, r, m), req);
      OutcomeAt(before, after, r, seq(8, _ => m), req) == if d.None? then None else Some(d.value.action.Allow?)
  {
    var l := ListsAt(before, after, r, m);
    var ms := seq(8, _ => m);
    forall q | 0 <= q < 4 ensures Seen(before, after, r, ms, q, req) == Listed(l, q, req) {
      assert ms[2 * q] == m && ms[2 * q + 1] == m;
    }
    ListedIs(l, req);
  }

  ghost predicate AlwaysDenied(before: Lists, after: Lists, req: Request) {
    forall r: Runs, ms: seq<nat> :: ReloadRuns(before, after, r) && InOrder(ms) ==>
      OutcomeAt(before, after, r, ms, req) == Some(false)
  }

  ghost predicate AlwaysAllowed(before: Lists, after: Lists, req: Request) {
    forall r: Runs, ms: seq<nat> :: ReloadRuns(before, after, r) && InOrder(ms) ==>
      OutcomeAt(before, after, r, ms, req) == Some(true)
  }

  ghost predicate Unlisted(before: Lists, after: Lists, k: nat, req: Request) {
    !Listed(before, k, req) && !Listed(after, k, req)
  }

  /** Lookups of list `k` and then of list `q` at the given steps of their swaps. */
  function LookupsOfTwo(r: Runs, k: nat, i: nat, j: nat, q: nat, i': nat, j': nat): seq<nat> {
    seq(8, n requires n >= 0 => LookupOfTwo(r, k, i, j, q, i', j', n))
  }

  function LookupOfTwo(r: Runs, k: nat, i: nat, j: nat, q: nat, i': nat, j': nat, n: nat): nat {
    if n < 2 * k then From(r, k)
    else if n == 2 * k then From(r, k) + i
    else if n < 2 * q then From(r, k) + j
    else if n == 2 * q then From(r, q) + i'
    else From(r, q) + j'
  }

  lemma LookupsInOrder(r: Runs, k: nat, i: nat, j: nat, q: nat, i': nat, j': nat)
    requires k < q < 4 && i <= j <= |StepsOf(r, k)| && i' <= j'
    ensures var ms := LookupsOfTwo(r, k, i, j, q, i', j');
      && InOrder(ms) && ms[2 * k] == From(r, k) + i && ms[2 * k + 1] == From(r, k) + j
      && ms[2 * q] == From(r, q) + i' && ms[2 * q + 1] == From(r, q) + j'
  {
    assert From(r, k) + |StepsOf(r, k)| <= From(r, q);
  }

  lemma SeenInTwo(before: Lists, after: Lists, r: Runs, k: nat, i: nat, j: nat, q: nat, i': nat, j': nat, req: Request)
    returns (ms: seq<nat>)
    requires k < q < 4 && i <= j <= |StepsOf(r, k)| && i' <= j' <= |StepsOf(r, q)|
    ensures InOrder(ms)
    ensures Seen(before, after, r, ms, k, req) == ReadsOf(before, after, k, StepsOf(r, k), i, j, req)
    ensures Seen(before, after, r, ms, q, req) == ReadsOf(before, after, q, StepsOf(r, q), i', j', req)
  {
    ms := LookupsOfTwo(r, k, i, j, q, i', j');
    LookupsInOrder(r, k, i, j, q, i', j');
    SeenIsRead(before, after, r, ms, k, i, j, req);
    SeenIsRead(before, after, r, ms, q, i', j', req);
  }

  /** Where list `q` is listed at all, some lookup during its swap finds it. */
  lemma ReadSometime(before: Lists, after: Lists, r: Runs, q: nat, req: Request) returns (i: nat)
    requires ReloadRuns(before, after, r) && q < 4 && !Unlisted(before, after, q, req)
    ensures i <= |StepsOf(r, q)| && ReadsOf(before, after, q, StepsOf(r, q), i, i, req)
  {
    BeforeAndAfter(before, after, r);
    i := if Listed(before, q, req) then 0 else |StepsOf(r, q)|;
  }

  /** The swap of `q` begins only after that of `k`, so that a reader which missed
      list `k` can still meet list `q` at any of its moments. */
  lemma MissedThenSeen(before: Lists, after: Lists, k: nat, q: nat, req: Request) returns (r: Runs, ms: seq<nat>)
    requires k < q < 4 && !CoveredIn(before, after, k, req) && !Unlisted(before, after, q, req)
    ensures ReloadRuns(before, after, r) && InOrder(ms)
    ensures !Seen(before, after, r, ms, k, req) && Seen(before, after, r, ms, q, req)
  {
    var steps, i, j := MissedIn(before, after, k, req);
    r := SomeRuns(before, after);
    r := WithSteps(before, after, r, k, steps);
    var i' := ReadSometime(before, after, r, q, req);
    ms := SeenInTwo(before, after, r, k, i, j, q, i', i', req);
  }

  lemma MissedTwice(before: Lists, after: Lists, k: nat, q: nat, req: Request) returns (r: Runs, ms: seq<nat>)
    requires k < q < 4 && !CoveredIn(before, after, k, req) && !CoveredIn(before, after, q, req)
    ensures ReloadRuns(before, after, r) && InOrder(ms)
    ensures !Seen(before, after, r, ms, k, req) && !Seen(before, after, r, ms, q, req)
  {
    var steps, i, j := MissedIn(before, after, k, req);
    var steps', i', j' := MissedIn(before, after, q, req);
    r := SomeRuns(before, after);
    r := WithSteps(before, after, r, k, steps);
    r := WithSteps(before, after, r, q, steps');
    ms := SeenInTwo(before, after, r, k, i, j, q, i', j', req);
  }

  /** The list after next is a second chance for list `k`, if the one between never
      matches; otherwise the request can slip past both. */
  lemma SecondChance(before: Lists, after: Lists, k: nat, req: Request) returns (r: Runs, ms: seq<nat>)
    requires k < 2 && !CoveredIn(before, after, k, req)
    requires !(Unlisted(before, after, k + 1, req) && CoveredIn(before, after, k + 2, req))
    ensures ReloadRuns(before, after, r) && InOrder(ms) && !Seen(before, after, r, ms, k, req)
    ensures Seen(before, after, r, ms, k + 1, req) || !Seen(before, after, r, ms, k + 2, req)
  {
    if Unlisted(before, after, k + 1, req) {
      r, ms := MissedTwice(before, after, k, k + 2, req);
    } else {
      r, ms := MissedThenSeen(before, after, k, k + 1, req);
    }
  }

  /** One of the lists that may decide, with no match in those before that decide
      otherwise, is enough. */
  lemma CoveredDenies(before: Lists, after: Lists, r: Runs, ms: seq<nat>, req: Request)
    requires ReloadRuns(before, after, r) && InOrder(ms) && Unlisted(before, after, 0, req)
    requires CoveredIn(before, after, 1, req) || (Unlisted(before, after, 2, req) && CoveredIn(before, after, 3, req))
    ensures OutcomeAt(before, after, r, ms, req) == Some(false)
  {
    UnlistedIsUnseen(before, after, r, ms, 0, req);
    if CoveredIn(before, after, 1, req) {
      CoveredIsSeen(before, after, r, ms, 1, req);
    } else {
      UnlistedIsUnseen(before, after, r, ms, 2, req);
      CoveredIsSeen(before, after, r, ms, 3, req);
    }
  }

  lemma CoveredAllows(before: Lists, after: Lists, r: Runs, ms: seq<nat>, req: Request)
    requires ReloadRuns(before, after, r) && InOrder(ms)
    requires CoveredIn(before, after, 0, req) || (Unlisted(before, after, 1, req) && CoveredIn(before, after, 2, req))
    ensures OutcomeAt(before, after, r, ms, req) == Some(true)
  {
    if CoveredIn(before, after, 0, req) {
      CoveredIsSeen(before, after, r, ms, 0, req);
    } else {
      UnlistedIsUnseen(before, after, r, ms, 1, req);
      CoveredIsSeen(before, after, r, ms, 2, req);
    }
  }

  lemma SometimesNotDenied(before: Lists, after: Lists, req: Request) returns (r: Runs, ms: seq<nat>)
    requires !Unlisted(before, after, 0, req) ||
      (!CoveredIn(before, after, 1, req) && !(Unlisted(before, after, 2, req) && CoveredIn(before, after, 3, req)))
    ensures ReloadRuns(before, after, r) && InOrder(ms) && OutcomeAt(before, after, r, ms, req) != Some(false)
  {
    if !Unlisted(before, after, 0, req) {
      r, ms := ListedIsSeen(before, after, 0, req);
    } else {
      r, ms := SecondChance(before, after, 1, req);
    }
  }

  lemma SometimesNotAllowed(before: Lists, after: Lists, req: Request) returns (r: Runs, ms: seq<nat>)
    requires !CoveredIn(before, after, 0, req)
    requires !(Unlisted(before, after, 1, req) && CoveredIn(before, after, 2, req))
    ensures ReloadRuns(before, after, r) && InOrder(ms) && OutcomeAt(before, after, r, ms, req) != Some(true)
  {
    r, ms := SecondChance(before, after, 0, req);
  }

  /**
   A request is denied by the lists at every moment of a reload if and only if no IP
   whitelist entry matches, old or new, and either the IP blacklist covers it or the
   URL blacklist does and no URL whitelist entry matches.
   */
  lemma DeniedThroughout(before: Lists, after: Lists, req: Request)
    ensures AlwaysDenied(before, after, req) <==>
      && Unlisted(before, after, 0, req)
      && (CoveredIn(before, after, 1, req) ||
          (Unlisted(before, after, 2, req) && CoveredIn(before, after, 3, req)))
  {
    if && Unlisted(before, after, 0, req)
       && (CoveredIn(before, after, 1, req) ||
           (Unlisted(before, after, 2, req) && CoveredIn(before, after, 3, req))) {
      forall r: Runs, ms: seq<nat> | ReloadRuns(before, after, r) && InOrder(ms)
        ensures OutcomeAt(before, after, r, ms, req) == Some(false)
      {
        CoveredDenies(before, after, r, ms, req);
      }
    } else {
      var r, ms := SometimesNotDenied(before, after, req);
    }
  }

  /** And allowed if and only if the IP whitelist covers it, or the URL whitelist does
      and no IP blacklist entry matches, old or new. */
  lemma AllowedThroughout(before: Lists, after: Lists, req: Request)
    ensures AlwaysAllowed(before, after, req) <==>
      || CoveredIn(before, after, 0, req)
      || (Unlisted(before, after, 1, req) && CoveredIn(before, after, 2, req))
  {
    if || CoveredIn(before, after, 0, req)
       || (Unlisted(before, after, 1, req) && CoveredIn(before, after, 2, req)) {
      forall r: Runs, ms: seq<nat> | ReloadRuns(before, after, r) && InOrder(ms)
        ensures OutcomeAt(before, after, r, ms, req) == Some(true)
      {
        CoveredAllows(before, after, r, ms, req);
      }
    } else {
      var r, ms := SometimesNotAllowed(before, after, req);
    }
  }
}
