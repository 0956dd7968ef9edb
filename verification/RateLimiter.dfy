/**
 Per-IP token-bucket limiter of the management API
 (waf-api/src/security.rs).  Tokens and times are reals, in tokens and
 seconds; every operation receives the instant it runs at.
 */
module RateLimiter {
  import opened Basics

  const MAX_ENTRIES: nat := 50_000
  const TTL: real := 600.0

  datatype Bucket = Bucket(tokens: real, lastRefill: real)

  type Buckets = map<IpAddr, Bucket>

  /** `rps.saturating_mul(5).max(10)` over `u32`. */
  function Burst(rps: nat): real {
    var five := Min(5 * rps, U32 - 1);
    (if five < 10 then 10 else five) as real
  }

  /** `Instant::duration_since` saturates at zero. */
  function Elapsed(now: real, since: real): real {
    if now > since then now - since else 0.0
  }

  function Cap(t: real, burst: real): real {
    if t < burst then t else burst
  }

  /** Tokens gained in `dt` seconds: `dt * rps`, as `GainIsProduct` shows.
      Written as a sum so that proofs below stay linear. */
  function Gain(rps: nat, dt: real): real {
    if rps == 0 then 0.0 else dt + Gain(rps - 1, dt)
  }

  lemma {:induction false} GainIsProduct(rps: nat, dt: real)
    ensures Gain(rps, dt) == dt * rps as real
  {
    if rps > 0 {
      GainIsProduct(rps - 1, dt);
      assert dt * rps as real == dt + dt * (rps - 1) as real;
    }
  }

  /** The product in `elapsed.mul_add(self.rps, bucket.tokens)`. */
  method Earned(rps: nat, elapsed: real) returns (gain: real)
    ensures gain == Gain(rps, elapsed)
  {
    GainIsProduct(rps, elapsed);
    gain := elapsed * rps as real;
  }

  function Refilled(rps: nat, b: Bucket, now: real): real {
    Cap(b.tokens + Gain(rps, Elapsed(now, b.lastRefill)), Burst(rps))
  }

  /** One check against the entry of an address, present or not. */
  function CheckEntry(rps: nat, entry: Option<Bucket>, now: real): (Bucket, bool) {
    var b := if entry.Some? then entry.value else Bucket(Burst(rps), now);
    var t := Refilled(rps, b, now);
    if t >= 1.0 then (Bucket(t - 1.0, now), true) else (Bucket(t, now), false)
  }

  function CheckIn(rps: nat, m: Buckets, ip: IpAddr, now: real): (Buckets, bool) {
    if rps == 0 then (m, true)
    else var (b, ok) := CheckEntry(rps, Get(m, ip), now); (m[ip := b], ok)
  }

  /** Entries the TTL sweep keeps. */
  function Fresh(m: Buckets, now: real): Buckets {
    map ip | ip in m && Elapsed(now, m[ip].lastRefill) < TTL :: m[ip]
  }

  /** `evict` is a set the size cap may remove from `m`: just enough entries,
      none newer than an entry that stays.  Ties leave a choice. */
  ghost predicate CapChoice(m: Buckets, evict: set<IpAddr>) {
    && evict <= m.Keys
    && |evict| == (if |m| > MAX_ENTRIES then |m| - MAX_ENTRIES else 0)
    && forall gone, left :: gone in evict && left in m && left !in evict
         ==> m[gone].lastRefill <= m[left].lastRefill
  }

  // ---------------------------------------------------------------------------
  // The limiter object
  // ---------------------------------------------------------------------------

  type Entry = (IpAddr, real)

  ghost predicate Lists(entries: seq<Entry>, m: Buckets) {
    && |entries| == |m|
    && (forall i :: 0 <= i < |entries| ==> entries[i].0 in m && entries[i].1 == m[entries[i].0].lastRefill)
    && (forall i, j :: 0 <= i < j < |entries| ==> entries[i].0 != entries[j].0)
    && (forall ip <- m :: (ip, m[ip].lastRefill) in entries)
  }

  ghost predicate OldestFirst(entries: seq<Entry>) {
    forall i, j :: 0 <= i < j < |entries| ==> entries[i].1 <= entries[j].1
  }

  /** The map's entries, in whatever order its iteration yields them. */
  method CollectEntries(m: Buckets) returns (entries: seq<Entry>)
    ensures Lists(entries, m)
  {
    entries := [];
    var rest := m.Keys;
    while rest != {}
      invariant rest <= m.Keys && |entries| + |rest| == |m.Keys|
      invariant forall i :: 0 <= i < |entries| ==>
        entries[i].0 in m && entries[i].0 !in rest && entries[i].1 == m[entries[i].0].lastRefill
      invariant forall i, j :: 0 <= i < j < |entries| ==> entries[i].0 != entries[j].0
      invariant forall ip <- m :: ip in rest || (ip, m[ip].lastRefill) in entries
      decreases rest
    {
      var ip :| ip in rest;
      rest := rest - {ip};
      entries := entries + [(ip, m[ip].lastRefill)];
    }
    assert |m.Keys| == |m|;
  }

  /** Put one entry behind the last one that is not younger. */
  method InsertByAge(sorted: seq<Entry>, e: Entry) returns (r: seq<Entry>)
    requires OldestFirst(sorted)
    ensures OldestFirst(r) && multiset(r) == multiset(sorted) + multiset{e}
  {
    var k := |sorted|;
    while k > 0 && sorted[k - 1].1 > e.1
      invariant 0 <= k <= |sorted|
      invariant forall i :: k <= i < |sorted| ==> sorted[i].1 > e.1
    {
      k := k - 1;
    }
    r := sorted[..k] + [e] + sorted[k..];
    InsertCounts(sorted, k, e);
  }

  /** `sort_by_key` on the time stamps. */
  method SortByAge(entries: seq<Entry>) returns (sorted: seq<Entry>)
    ensures multiset(sorted) == multiset(entries) && OldestFirst(sorted)
  {
    sorted := [];
    for n := 0 to |entries|
      invariant OldestFirst(sorted) && multiset(sorted) == multiset(entries[..n])
    {
      sorted := InsertByAge(sorted, entries[n]);
      assert entries[..n + 1] == entries[..n] + [entries[n]];
    }
    assert entries[..|entries|] == entries;
  }

  /** Reordering the list of entries leaves it a list of the same map. */
  lemma ListsPermuted(entries: seq<Entry>, sorted: seq<Entry>, m: Buckets)
    requires Lists(entries, m) && multiset(sorted) == multiset(entries)
    ensures Lists(sorted, m)
  {
    assert |sorted| == |multiset(sorted)| == |entries|;
    forall i | 0 <= i < |sorted|
      ensures sorted[i].0 in m && sorted[i].1 == m[sorted[i].0].lastRefill
    {
      assert sorted[i] in multiset(entries);
      assert sorted[i] in entries;
    }
    NoDupPermuted(entries, sorted);
    forall ip | ip in m ensures (ip, m[ip].lastRefill) in sorted {
      assert (ip, m[ip].lastRefill) in multiset(entries);
      assert (ip, m[ip].lastRefill) in multiset(sorted);
    }
  }

  /** The addresses of the first `k` entries. */
  ghost function FirstOf(entries: seq<Entry>, k: nat): set<IpAddr>
    requires k <= |entries|
  {
    if k == 0 then {} else FirstOf(entries, k - 1) + {entries[k - 1].0}
  }

  lemma {:induction false} FirstOfHolds(entries: seq<Entry>, k: nat, i: nat)
    requires i < k <= |entries|
    ensures entries[i].0 in FirstOf(entries, k)
    decreases k
  {
    if i < k - 1 { FirstOfHolds(entries, k - 1, i); }
  }

  lemma {:induction false} FirstOfIndex(entries: seq<Entry>, k: nat, ip: IpAddr) returns (i: nat)
    requires k <= |entries| && ip in FirstOf(entries, k)
    ensures i < k && entries[i].0 == ip
    decreases k
  {
    if ip == entries[k - 1].0 { i := k - 1; } else { i := FirstOfIndex(entries, k - 1, ip); }
  }

  lemma {:induction false} FirstOfSize(entries: seq<Entry>, k: nat)
    requires k <= |entries|
    requires forall i, j :: 0 <= i < j < |entries| ==> entries[i].0 != entries[j].0
    ensures |FirstOf(entries, k)| == k
    decreases k
  {
    if k > 0 {
      FirstOfSize(entries, k - 1);
      if entries[k - 1].0 in FirstOf(entries, k - 1) {
        var i := FirstOfIndex(entries, k - 1, entries[k - 1].0);
      }
    }
  }

  /** The head of a sorted list holds the oldest addresses. */
  lemma HeadIsOldest(entries: seq<Entry>, m: Buckets, k: nat, gone: IpAddr, left: IpAddr)
    requires Lists(entries, m) && OldestFirst(entries) && k <= |entries|
    requires gone in FirstOf(entries, k) && left in m && left !in FirstOf(entries, k)
    ensures gone in m && m[gone].lastRefill <= m[left].lastRefill
  {
    var i := FirstOfIndex(entries, k, gone);
    var j :| 0 <= j < |entries| && entries[j] == (left, m[left].lastRefill);
    if j < k { FirstOfHolds(entries, k, j); }
  }

  lemma OldestIsCapChoice(entries: seq<Entry>, m: Buckets, k: nat)
    requires Lists(entries, m) && OldestFirst(entries) && |m| > MAX_ENTRIES && k == |m| - MAX_ENTRIES
    ensures CapChoice(m, FirstOf(entries, k))
  {
    var evict := FirstOf(entries, k);
    FirstOfSize(entries, k);
    forall ip | ip in evict ensures ip in m {
      var i := FirstOfIndex(entries, k, ip);
    }
    forall gone, left | gone in evict && left in m && left !in evict
      ensures m[gone].lastRefill <= m[left].lastRefill
    {
      HeadIsOldest(entries, m, k, gone, left);
    }
  }

  lemma SortedIsCapChoice(listed: seq<Entry>, entries: seq<Entry>, m: Buckets, k: nat)
    requires Lists(listed, m) && multiset(entries) == multiset(listed) && OldestFirst(entries)
    requires |m| > MAX_ENTRIES && k == |m| - MAX_ENTRIES
    ensures |entries| == |m| && CapChoice(m, FirstOf(entries, k))
  {
    ListsPermuted(listed, entries, m);
    OldestIsCapChoice(entries, m, k);
  }

  lemma RemoveNext(m: Buckets, entries: seq<Entry>, k: nat)
    requires k < |entries|
    ensures (m - FirstOf(entries, k)) - {entries[k].0} == m - FirstOf(entries, k + 1)
  {
  }

  method EntriesOldestFirst(m: Buckets) returns (entries: seq<Entry>)
    requires |m| > MAX_ENTRIES
    ensures |entries| == |m| && CapChoice(m, FirstOf(entries, |m| - MAX_ENTRIES))
  {
    var listed := CollectEntries(m);
    entries := SortByAge(listed);
    SortedIsCapChoice(listed, entries, m, |m| - MAX_ENTRIES);
  }

  /** What a cleanup leaves: entries refilled in the last 600 seconds, unchanged, and of
      those at most 50,000, none of them older than one that went. */
  ghost predicate Swept(m: Buckets, now: real, evict: set<IpAddr>, left: Buckets) {
    && |left| <= 50_000 && (evict != {} ==> |left| == 50_000)
    && (forall ip <- left :: ip in m && left[ip] == m[ip])
    && (forall ip <- m :: ip in left <==> ip !in evict && Elapsed(now, m[ip].lastRefill) < 600.0)
    && (forall ip, other :: ip in evict && other in left ==> ip in m && m[ip].lastRefill <= left[other].lastRefill)
  }

  lemma SweptIs(m: Buckets, now: real, evict: set<IpAddr>)
    requires CapChoice(Fresh(m, now), evict)
    ensures Swept(m, now, evict, Fresh(m, now) - evict)
  {
    var f := Fresh(m, now);
    assert (f - evict).Keys == f.Keys - evict;
    assert |f.Keys - evict| == |f.Keys| - |evict|;
    assert |f - evict| == |(f - evict).Keys| && |f| == |f.Keys|;
  }

  class ApiRateLimiter {
    const rps: nat
    var buckets: Buckets

    constructor (rps: nat)
      ensures this.rps == rps && buckets == map[]
    {
      this.rps := rps;
      buckets := map[];
    }

    method Check(ip: IpAddr, now: real) returns (allowed: bool)
      modifies this`buckets
      ensures (buckets, allowed) == CheckIn(rps, old(buckets), ip, now)
    {
      if rps == 0 { return true; }
      if ip !in buckets {
        buckets := buckets[ip := Bucket(Burst(rps), now)];
      }
      var gain := Earned(rps, Elapsed(now, buckets[ip].lastRefill));
      var tokens := Cap(buckets[ip].tokens + gain, Burst(rps));
      allowed := tokens >= 1.0;
      buckets := buckets[ip := Bucket(if allowed then tokens - 1.0 else tokens, now)];
      assert buckets == old(buckets)[ip := buckets[ip]];
    }

    method Cleanup(now: real) returns (ghost evict: set<IpAddr>)
      modifies this`buckets
      ensures CapChoice(Fresh(old(buckets), now), evict)
      ensures buckets == Fresh(old(buckets), now) - evict
      ensures Swept(old(buckets), now, evict, buckets)
    {
      buckets := map ip | ip in buckets && Elapsed(now, buckets[ip].lastRefill) < TTL :: buckets[ip];
      evict := {};
      if |buckets| > MAX_ENTRIES {
        evict := EvictOldest();
      }
      SweptIs(old(buckets), now, evict);
    }

    method EvictOldest() returns (ghost evict: set<IpAddr>)
      requires |buckets| > MAX_ENTRIES
      modifies this`buckets
      ensures CapChoice(old(buckets), evict) && buckets == old(buckets) - evict
    {
      var entries := EntriesOldestFirst(buckets);
      var toRemove := |buckets| - MAX_ENTRIES;
      evict := FirstOf(entries, toRemove);
      RemoveFirst(entries, toRemove);
    }

    method RemoveFirst(entries: seq<Entry>, count: nat)
      requires count <= |entries|
      modifies this`buckets
      ensures buckets == old(buckets) - FirstOf(entries, count)
    {
      for k := 0 to count
        invariant buckets == old(buckets) - FirstOf(entries, k)
      {
        buckets := buckets - {entries[k].0};
        RemoveNext(old(buckets), entries, k);
      }
    }
  }

  // ---------------------------------------------------------------------------
  // Runs
  // ---------------------------------------------------------------------------

  datatype Event = Check(ip: IpAddr, now: real) | Cleanup(now: real, evict: set<IpAddr>)

  function After(rps: nat, m: Buckets, e: Event): Buckets {
    match e
    case Check(ip, now) => CheckIn(rps, m, ip, now).0
    case Cleanup(now, evict) => Fresh(m, now) - evict
  }

  /** Events in clock order from `clock` on, each cleanup with a cap choice the
      code could make. */
  ghost predicate ValidRun(rps: nat, m: Buckets, clock: real, events: seq<Event>)
    decreases |events|
  {
    events == [] ||
    (&& clock <= events[0].now
     && (events[0].Cleanup? ==> CapChoice(Fresh(m, events[0].now), events[0].evict))
     && ValidRun(rps, After(rps, m, events[0]), events[0].now, events[1..]))
  }

  ghost predicate EndsBy(events: seq<Event>, t: real) {
    forall k :: 0 <= k < |events| ==> events[k].now <= t
  }

  /** The answers given to one address, in order. */
  function Answers(rps: nat, m: Buckets, events: seq<Event>, ip: IpAddr): seq<bool>
    decreases |events|
  {
    if events == [] then []
    else
      var rest := Answers(rps, After(rps, m, events[0]), events[1..], ip);
      if events[0] == Check(ip, events[0].now) then [CheckIn(rps, m, ip, events[0].now).1] + rest else rest
  }

  /** The answers of a limiter that never evicts anything. */
  function ReferenceAnswers(rps: nat, m: Buckets, events: seq<Event>, ip: IpAddr): seq<bool>
    decreases |events|
  {
    if events == [] then []
    else if events[0].Cleanup? then ReferenceAnswers(rps, m, events[1..], ip)
    else
      var (m', ok) := CheckIn(rps, m, events[0].ip, events[0].now);
      var rest := ReferenceAnswers(rps, m', events[1..], ip);
      if events[0].ip == ip then [ok] + rest else rest
  }

  function CapEvictions(events: seq<Event>, ip: IpAddr): nat
    decreases |events|
  {
    if events == [] then 0
    else (if events[0].Cleanup? && ip in events[0].evict then 1 else 0) + CapEvictions(events[1..], ip)
  }

  function CountTrue(answers: seq<bool>): nat {
    if answers == [] then 0 else (if answers[0] then 1 else 0) + CountTrue(answers[1..])
  }

  /** Tokens in range and time stamps in the past. */
  ghost predicate SaneEntry(rps: nat, e: Option<Bucket>, clock: real) {
    e.Some? ==> 0.0 <= e.value.tokens <= Burst(rps) && e.value.lastRefill <= clock
  }

  ghost predicate Sane(rps: nat, m: Buckets, clock: real) {
    forall ip :: SaneEntry(rps, Get(m, ip), clock)
  }

  lemma {:induction false} GainAdds(rps: nat, a: real, b: real)
    requires a >= 0.0 && b >= 0.0
    ensures Gain(rps, a + b) == Gain(rps, a) + Gain(rps, b)
    ensures Gain(rps, a) >= 0.0 && Gain(rps, b) >= 0.0
  {
    if rps > 0 { GainAdds(rps - 1, a, b); }
  }

  lemma {:induction false} GainZero(rps: nat)
    ensures Gain(rps, 0.0) == 0.0
  {
    if rps > 0 { GainZero(rps - 1); }
  }

  lemma RefillRange(rps: nat, b: Bucket, now: real)
    requires 0.0 <= b.tokens <= Burst(rps)
    ensures b.tokens <= Refilled(rps, b, now) <= Burst(rps)
    ensures now <= b.lastRefill ==> Refilled(rps, b, now) == b.tokens
  {
    GainAdds(rps, Elapsed(now, b.lastRefill), 0.0);
    GainZero(rps);
  }

  lemma CapAdds(x: real, gain: real, burst: real)
    requires gain >= 0.0
    ensures Cap(x, burst) <= Cap(x + gain, burst) <= Cap(x, burst) + gain
    ensures Cap(x, burst) == burst ==> Cap(x + gain, burst) == burst
  {
  }

  /** Waiting from `mid` to `now` adds at most that much refill, and keeps a
      full bucket full. */
  lemma RefillLater(rps: nat, b: Bucket, mid: real, now: real)
    requires b.lastRefill <= mid <= now
    ensures Refilled(rps, b, mid) <= Refilled(rps, b, now) <= Refilled(rps, b, mid) + Gain(rps, now - mid)
    ensures Refilled(rps, b, mid) == Burst(rps) ==> Refilled(rps, b, now) == Burst(rps)
  {
    GainAdds(rps, Elapsed(mid, b.lastRefill), now - mid);
    assert Elapsed(now, b.lastRefill) == Elapsed(mid, b.lastRefill) + (now - mid);
    CapAdds(b.tokens + Gain(rps, Elapsed(mid, b.lastRefill)), Gain(rps, now - mid), Burst(rps));
  }

  /** 600 seconds of refill fill any bucket, because the burst is at most
      max(5 rps, 10). */
  lemma TtlRefillsToBurst(rps: nat, b: Bucket, now: real)
    requires rps >= 1 && 0.0 <= b.tokens && Elapsed(now, b.lastRefill) >= TTL
    ensures Refilled(rps, b, now) == Burst(rps)
  {
    var dt := Elapsed(now, b.lastRefill);
    GainIsProduct(rps, TTL);
    GainAdds(rps, TTL, dt - TTL);
    assert TTL + (dt - TTL) == dt;
  }

  /** Every operation keeps the tokens between 0 and the burst. */
  lemma StepKeepsSane(rps: nat, m: Buckets, clock: real, e: Event)
    requires Sane(rps, m, clock) && clock <= e.now
    ensures Sane(rps, After(rps, m, e), e.now)
  {
    var m' := After(rps, m, e);
    forall ip ensures SaneEntry(rps, Get(m', ip), e.now) {
      assert SaneEntry(rps, Get(m, ip), clock);
      if e.Check? && ip == e.ip && rps != 0 {
        var b := if ip in m then m[ip] else Bucket(Burst(rps), e.now);
        RefillRange(rps, b, e.now);
      }
    }
  }

  function Final(rps: nat, m: Buckets, events: seq<Event>): Buckets
    decreases |events|
  {
    if events == [] then m else Final(rps, After(rps, m, events[0]), events[1..])
  }

  function LastClock(clock: real, events: seq<Event>): real {
    if events == [] then clock else events[|events| - 1].now
  }

  /** Over every run, tokens stay between 0 and the burst. */
  lemma {:induction false} RunKeepsSane(rps: nat, m: Buckets, clock: real, events: seq<Event>)
    requires Sane(rps, m, clock) && ValidRun(rps, m, clock, events)
    ensures Sane(rps, Final(rps, m, events), LastClock(clock, events))
    decreases |events|
  {
    if events != [] {
      StepKeepsSane(rps, m, clock, events[0]);
      RunKeepsSane(rps, After(rps, m, events[0]), events[0].now, events[1..]);
    }
  }

  /**
   The simulation: both limiters hold the same entry, or the evicting one holds
   none where the reference has a bucket that is full again.
   */
  ghost predicate Similar(rps: nat, entry: Option<Bucket>, reference: Option<Bucket>, clock: real) {
    && SaneEntry(rps, reference, clock)
    && (entry == reference || (entry.None? && Refilled(rps, reference.value, clock) == Burst(rps)))
  }

  lemma SimilarLater(rps: nat, entry: Option<Bucket>, reference: Option<Bucket>, clock: real, now: real)
    requires Similar(rps, entry, reference, clock) && clock <= now
    ensures Similar(rps, entry, reference, now)
  {
    if reference.Some? { RefillLater(rps, reference.value, clock, now); }
  }

  lemma {:induction false} SimilarAnswers(rps: nat, m: Buckets, r: Buckets, clock: real, events: seq<Event>, ip: IpAddr)
    requires rps >= 1 && ValidRun(rps, m, clock, events)
    requires Similar(rps, Get(m, ip), Get(r, ip), clock)
    requires CapEvictions(events, ip) == 0
    ensures Answers(rps, m, events, ip) == ReferenceAnswers(rps, r, events, ip)
    decreases |events|
  {
    if events != [] {
      var e := events[0];
      var m' := After(rps, m, e);
      var r' := if e.Check? then CheckIn(rps, r, e.ip, e.now).0 else r;
      SimilarLater(rps, Get(m, ip), Get(r, ip), clock, e.now);
      if e.Check? {
        if e.ip == ip {
          var b := if ip in r then r[ip] else Bucket(Burst(rps), e.now);
          RefillRange(rps, b, e.now);
          GainZero(rps);
          assert CheckEntry(rps, Get(m, ip), e.now) == CheckEntry(rps, Get(r, ip), e.now);
        }
      } else if ip in m && ip !in m' {
        TtlRefillsToBurst(rps, m[ip], e.now);
      }
      SimilarAnswers(rps, m', r', e.now, events[1..], ip);
    }
  }

  /**
   TTL eviction is invisible: over every run from the empty map, an address
   the size cap never evicts gets exactly the answers of a limiter that never
   forgets anyone.
   */
  lemma TtlEvictionIsInvisible(rps: nat, clock: real, events: seq<Event>, ip: IpAddr)
    requires ValidRun(rps, map[], clock, events) && CapEvictions(events, ip) == 0
    ensures Answers(rps, map[], events, ip) == ReferenceAnswers(rps, map[], events, ip)
  {
    if rps == 0 {
      UnlimitedAnswers(map[], map[], events, ip);
    } else {
      SimilarAnswers(rps, map[], map[], clock, events, ip);
    }
  }

  lemma {:induction false} UnlimitedAnswers(m: Buckets, r: Buckets, events: seq<Event>, ip: IpAddr)
    ensures Answers(0, m, events, ip) == ReferenceAnswers(0, r, events, ip)
    decreases |events|
  {
    if events != [] {
      UnlimitedAnswers(After(0, m, events[0]), r, events[1..], ip);
    }
  }

  // ---------------------------------------------------------------------------
  // Admission bound
  // ---------------------------------------------------------------------------

  /** Requests an address could have admitted at once at `now`. */
  function Credit(rps: nat, e: Option<Bucket>, now: real): real {
    if e.None? then Burst(rps) else Refilled(rps, e.value, now)
  }

  /** `k` bursts, again as a sum. */
  function Bursts(rps: nat, k: nat): real {
    if k == 0 then 0.0 else Burst(rps) + Bursts(rps, k - 1)
  }

  lemma {:induction false} BurstsAdd(rps: nat, k: nat, l: nat)
    ensures Bursts(rps, k + l) == Bursts(rps, k) + Bursts(rps, l)
    ensures Bursts(rps, k) == k as real * Burst(rps)
  {
    if k > 0 {
      BurstsAdd(rps, k - 1, l);
      assert k as real * Burst(rps) == Burst(rps) + (k - 1) as real * Burst(rps);
    }
  }

  /** A check spends one credit when it admits, out of what was there plus the
      refill since `clock`. */
  lemma CreditAtCheck(rps: nat, entry: Option<Bucket>, clock: real, now: real)
    requires rps >= 1 && SaneEntry(rps, entry, clock) && clock <= now
    ensures var (b, ok) := CheckEntry(rps, entry, now);
      Credit(rps, Some(b), now) + (if ok then 1.0 else 0.0) <= Credit(rps, entry, clock) + Gain(rps, now - clock)
  {
    GainAdds(rps, now - clock, 0.0);
    if entry.Some? {
      RefillLater(rps, entry.value, clock, now);
      RefillRange(rps, entry.value, now);
    }
  }

  /** A cleanup can only raise the credit, to a full burst, and does so for free
      when the entry is past its TTL. */
  lemma CreditAtCleanup(rps: nat, m: Buckets, clock: real, now: real, evict: set<IpAddr>, ip: IpAddr)
    requires rps >= 1 && SaneEntry(rps, Get(m, ip), clock) && clock <= now
    ensures Credit(rps, Get(Fresh(m, now) - evict, ip), now)
         <= Credit(rps, Get(m, ip), clock) + Gain(rps, now - clock) + (if ip in evict then Burst(rps) else 0.0)
  {
    GainAdds(rps, now - clock, 0.0);
    if ip in m {
      RefillLater(rps, m[ip], clock, now);
      RefillRange(rps, m[ip], clock);
      if Elapsed(now, m[ip].lastRefill) >= TTL { TtlRefillsToBurst(rps, m[ip], now); }
    }
  }

  /** What one event admits for `ip`, and what it gives back by cap eviction. */
  function Admits(rps: nat, m: Buckets, e: Event, ip: IpAddr): nat {
    if e.Check? && e.ip == ip && CheckIn(rps, m, ip, e.now).1 then 1 else 0
  }

  function CapEvicts(e: Event, ip: IpAddr): nat {
    if e.Cleanup? && ip in e.evict then 1 else 0
  }

  lemma CreditStep(rps: nat, m: Buckets, clock: real, e: Event, ip: IpAddr)
    requires rps >= 1 && Sane(rps, m, clock) && clock <= e.now
    ensures Credit(rps, Get(After(rps, m, e), ip), e.now) + Admits(rps, m, e, ip) as real
         <= Credit(rps, Get(m, ip), clock) + Gain(rps, e.now - clock) + Bursts(rps, CapEvicts(e, ip))
  {
    assert SaneEntry(rps, Get(m, ip), clock);
    match e {
      case Check(other, now) =>
        if other == ip {
          CreditAtCheck(rps, Get(m, ip), clock, now);
        } else {
          GainAdds(rps, now - clock, 0.0);
          if ip in m { RefillLater(rps, m[ip], clock, now); }
        }
      case Cleanup(now, evict) =>
        CreditAtCleanup(rps, m, clock, now, evict, ip);
    }
  }

  lemma AnswersStep(rps: nat, m: Buckets, events: seq<Event>, ip: IpAddr)
    requires events != []
    ensures CountTrue(Answers(rps, m, events, ip))
         == Admits(rps, m, events[0], ip) + CountTrue(Answers(rps, After(rps, m, events[0]), events[1..], ip))
    ensures CapEvictions(events, ip) == CapEvicts(events[0], ip) + CapEvictions(events[1..], ip)
  {
    var rest := Answers(rps, After(rps, m, events[0]), events[1..], ip);
    var answer := CheckIn(rps, m, ip, events[0].now).1;
    assert ([answer] + rest)[1..] == rest;
  }

  /** Adding one event's bound to the bound of the rest. */
  lemma BoundsAdd(rps: nat, n1: nat, n2: nat, c0: real, c1: real, end: real, d1: real, d2: real, k1: nat, k2: nat)
    requires d1 >= 0.0 && d2 >= 0.0
    requires c1 + n1 as real <= c0 + Gain(rps, d1) + Bursts(rps, k1)
    requires end + n2 as real <= c1 + Gain(rps, d2) + Bursts(rps, k2)
    ensures end + (n1 + n2) as real <= c0 + Gain(rps, d1 + d2) + Bursts(rps, k1 + k2)
  {
    GainAdds(rps, d1, d2);
    BurstsAdd(rps, k1, k2);
  }

  /** What is admitted and what is left at `t` does not exceed what was there, the
      refill since, and a burst for each cap eviction. */
  ghost predicate WithinCredit(rps: nat, m: Buckets, clock: real, events: seq<Event>, t: real, ip: IpAddr) {
    Credit(rps, Get(Final(rps, m, events), ip), t) + CountTrue(Answers(rps, m, events, ip)) as real
    <= Credit(rps, Get(m, ip), clock) + Gain(rps, t - clock) + Bursts(rps, CapEvictions(events, ip))
  }

  lemma WithinCreditAtEnd(rps: nat, m: Buckets, clock: real, t: real, ip: IpAddr)
    requires Sane(rps, m, clock) && clock <= t
    ensures WithinCredit(rps, m, clock, [], t, ip)
  {
    GainAdds(rps, t - clock, 0.0);
    assert SaneEntry(rps, Get(m, ip), clock);
    if ip in m { RefillLater(rps, m[ip], clock, t); }
  }

  lemma WithinCreditStep(rps: nat, m: Buckets, clock: real, events: seq<Event>, t: real, ip: IpAddr)
    requires rps >= 1 && Sane(rps, m, clock) && events != [] && clock <= events[0].now <= t
    requires WithinCredit(rps, After(rps, m, events[0]), events[0].now, events[1..], t, ip)
    ensures WithinCredit(rps, m, clock, events, t, ip)
  {
    var e, rest := events[0], events[1..];
    var m' := After(rps, m, e);
    CreditStep(rps, m, clock, e, ip);
    AnswersStep(rps, m, events, ip);
    BoundsAdd(rps, Admits(rps, m, e, ip), CountTrue(Answers(rps, m', rest, ip)),
              Credit(rps, Get(m, ip), clock), Credit(rps, Get(m', ip), e.now),
              Credit(rps, Get(Final(rps, m', rest), ip), t),
              e.now - clock, t - e.now, CapEvicts(e, ip), CapEvictions(rest, ip));
    assert (e.now - clock) + (t - e.now) == t - clock;
  }

  lemma EndsByTail(events: seq<Event>, t: real)
    requires events != [] && EndsBy(events, t)
    ensures EndsBy(events[1..], t)
  {
    assert forall k :: 0 <= k < |events| - 1 ==> events[1..][k] == events[k + 1];
  }

  lemma {:induction false} CreditBound(rps: nat, m: Buckets, clock: real, events: seq<Event>, t: real, ip: IpAddr)
    requires rps >= 1 && Sane(rps, m, clock) && ValidRun(rps, m, clock, events) && clock <= t && EndsBy(events, t)
    ensures WithinCredit(rps, m, clock, events, t, ip)
    decreases |events|
  {
    if events == [] {
      WithinCreditAtEnd(rps, m, clock, t, ip);
    } else {
      StepKeepsSane(rps, m, clock, events[0]);
      EndsByTail(events, t);
      CreditBound(rps, After(rps, m, events[0]), events[0].now, events[1..], t, ip);
      WithinCreditStep(rps, m, clock, events, t, ip);
    }
  }

  lemma AdmissionSum(rps: nat, m: Buckets, s: real, events: seq<Event>, t: real, ip: IpAddr)
    requires rps >= 1 && Sane(rps, m, s) && ValidRun(rps, m, s, events) && s <= t && EndsBy(events, t)
    ensures CountTrue(Answers(rps, m, events, ip)) as real
         <= Bursts(rps, CapEvictions(events, ip) + 1) + Gain(rps, t - s)
  {
    CreditBound(rps, m, s, events, t, ip);
    CreditRange(rps, m, s, ip, s);
    FinalSane(rps, m, s, events, t);
    CreditRange(rps, Final(rps, m, events), t, ip, t);
  }

  lemma CreditRange(rps: nat, m: Buckets, clock: real, ip: IpAddr, t: real)
    requires Sane(rps, m, clock)
    ensures 0.0 <= Credit(rps, Get(m, ip), t) <= Burst(rps)
  {
    assert SaneEntry(rps, Get(m, ip), clock);
    if ip in m { RefillRange(rps, m[ip], t); }
  }

  lemma {:induction false} FinalSane(rps: nat, m: Buckets, clock: real, events: seq<Event>, t: real)
    requires Sane(rps, m, clock) && ValidRun(rps, m, clock, events) && clock <= t && EndsBy(events, t)
    ensures Sane(rps, Final(rps, m, events), t)
    decreases |events|
  {
    if events == [] {
      forall ip ensures SaneEntry(rps, Get(m, ip), t) {
        assert SaneEntry(rps, Get(m, ip), clock);
      }
    } else {
      StepKeepsSane(rps, m, clock, events[0]);
      EndsByTail(events, t);
      FinalSane(rps, After(rps, m, events[0]), events[0].now, events[1..], t);
    }
  }

  /**
   In any window [s, t] of any run, an address the cap evicts `k` times is
   admitted at most `(k + 1) * burst + rps * (t - s)` times.  TTL evictions
   cost nothing.
   */
  lemma AdmissionBound(rps: nat, m: Buckets, s: real, events: seq<Event>, t: real, ip: IpAddr)
    requires rps >= 1 && Sane(rps, m, s) && ValidRun(rps, m, s, events) && s <= t && EndsBy(events, t)
    ensures CountTrue(Answers(rps, m, events, ip)) as real <= Allowance(rps, CapEvictions(events, ip) + 1, t - s)
  {
    AdmissionSum(rps, m, s, events, t, ip);
    SumIsProduct(rps, CapEvictions(events, ip) + 1, t - s);
  }

  /** `k` bursts and `dt` seconds at `rps`. */
  function Allowance(rps: nat, k: nat, dt: real): real {
    k as real * Burst(rps) + dt * rps as real
  }

  lemma SumIsProduct(rps: nat, k: nat, dt: real)
    ensures Bursts(rps, k) + Gain(rps, dt) == Allowance(rps, k, dt)
  {
    GainIsProduct(rps, dt);
    BurstsAdd(rps, k, 0);
  }

  ghost predicate NoChecksOf(events: seq<Event>, ip: IpAddr) {
    forall k :: 0 <= k < |events| ==> events[k].Check? ==> events[k].ip != ip
  }

  lemma {:induction false} IdleEntry(rps: nat, m: Buckets, events: seq<Event>, ip: IpAddr)
    requires NoChecksOf(events, ip)
    ensures ip in Final(rps, m, events) ==> ip in m && Final(rps, m, events)[ip] == m[ip]
    decreases |events|
  {
    if events != [] {
      assert forall k :: 0 <= k < |events| - 1 ==> events[1..][k] == events[k + 1];
      IdleEntry(rps, After(rps, m, events[0]), events[1..], ip);
    }
  }

  /** An absent entry, or one refilled for 1/rps seconds, has a token. */
  lemma RestedEntryPasses(rps: nat, entry: Option<Bucket>, first: real, second: real)
    requires rps >= 1 && first <= second && Gain(rps, second - first) >= 1.0
    requires entry.Some? ==> 0.0 <= entry.value.tokens && entry.value.lastRefill == first
    ensures CheckEntry(rps, entry, second).1
  {
    GainZero(rps);
    if entry.None? {
      assert Refilled(rps, Bucket(Burst(rps), second), second) == Burst(rps);
    } else {
      assert Elapsed(second, first) == second - first;
    }
  }

  /** Pacing is enough: whatever else happens in between, a check at least
      1/rps seconds after the previous check of the same address is admitted. */
  lemma PacedChecksPass(rps: nat, m: Buckets, ip: IpAddr, first: real, events: seq<Event>, second: real)
    requires Sane(rps, m, first)
    requires NoChecksOf(events, ip) && first <= second && (rps == 0 || (second - first) * rps as real >= 1.0)
    ensures CheckIn(rps, Final(rps, After(rps, m, Check(ip, first)), events), ip, second).1
  {
    if rps > 0 {
      var m1 := After(rps, m, Check(ip, first));
      StepKeepsSane(rps, m, first, Check(ip, first));
      assert SaneEntry(rps, Get(m1, ip), first);
      IdleEntry(rps, m1, events, ip);
      GainIsProduct(rps, second - first);
      assert m1[ip].lastRefill == first;
      RestedEntryPasses(rps, Get(Final(rps, m1, events), ip), first, second);
    }
  }

  // ---------------------------------------------------------------------------
  // Exactly when a check is refused
  // ---------------------------------------------------------------------------

  /** The burst as a number: five seconds' worth, at least 10, at most 2^32 - 1. */
  lemma BurstIs(rps: nat)
    ensures Burst(rps) ==
      if rps <= 2 then 10.0 else if rps <= 858_993_459 then (5 * rps) as real else 4_294_967_295.0
  {
  }

  lemma CapTwice(x: real, gain: real, burst: real)
    requires gain >= 0.0
    ensures Cap(Cap(x, burst) + gain, burst) == Cap(x + gain, burst)
  {
  }

  /** Credit grows at the rate, up to the burst. */
  lemma CreditLater(rps: nat, entry: Option<Bucket>, clock: real, now: real)
    requires SaneEntry(rps, entry, clock) && clock <= now
    ensures Credit(rps, entry, now) == Cap(Credit(rps, entry, clock) + Gain(rps, now - clock), Burst(rps))
  {
    GainAdds(rps, now - clock, 0.0);
    if entry.Some? {
      var b := entry.value;
      GainAdds(rps, Elapsed(clock, b.lastRefill), now - clock);
      assert Elapsed(now, b.lastRefill) == Elapsed(clock, b.lastRefill) + (now - clock);
      CapTwice(b.tokens + Gain(rps, Elapsed(clock, b.lastRefill)), Gain(rps, now - clock), Burst(rps));
    }
  }

  /** A check is refused exactly if there is less than one credit, and an admitted one
      costs exactly one. */
  lemma CheckCosts(rps: nat, entry: Option<Bucket>, now: real)
    requires rps >= 1 && SaneEntry(rps, entry, now)
    ensures var (b, ok) := CheckEntry(rps, entry, now);
      && (ok <==> Credit(rps, entry, now) >= 1.0)
      && Credit(rps, Some(b), now) == Credit(rps, entry, now) - (if ok then 1.0 else 0.0)
  {
    GainZero(rps);
    if entry.Some? { RefillRange(rps, entry.value, now); }
  }

  /** An event takes away no more credit than it admits. */
  lemma CreditFloor(rps: nat, m: Buckets, clock: real, e: Event, ip: IpAddr)
    requires rps >= 1 && Sane(rps, m, clock) && clock <= e.now
    ensures Credit(rps, Get(After(rps, m, e), ip), e.now) + Admits(rps, m, e, ip) as real
         >= Cap(Credit(rps, Get(m, ip), clock) + Gain(rps, e.now - clock), Burst(rps))
  {
    assert SaneEntry(rps, Get(m, ip), clock);
    CreditLater(rps, Get(m, ip), clock, e.now);
    if e.Check? && e.ip == ip {
      CheckCosts(rps, Get(m, ip), e.now);
    } else {
      CreditRange(rps, m, clock, ip, e.now);
    }
  }

  /** From `s` to `t` the address was admitted so often that less than one of its burst
      and its refill is left, and the cap has not evicted it. */
  ghost predicate UsedUp(rps: nat, m: Buckets, s: real, events: seq<Event>, t: real, ip: IpAddr) {
    && CapEvictions(events, ip) == 0
    && CountTrue(Answers(rps, m, events, ip)) as real > Burst(rps) + Gain(rps, t - s) - 1.0
  }

  /** So it is from some moment on, now or later in the run. */
  ghost predicate UsedUpSince(rps: nat, m: Buckets, clock: real, events: seq<Event>, t: real, ip: IpAddr)
    decreases |events|
  {
    || (exists s: real :: clock <= s <= t && (events != [] ==> s <= events[0].now) && UsedUp(rps, m, s, events, t, ip))
    || (events != [] && UsedUpSince(rps, After(rps, m, events[0]), events[0].now, events[1..], t, ip))
  }

  /** The credit at hand, instead of a full burst, is used up. */
  ghost predicate CreditUsedUp(rps: nat, m: Buckets, clock: real, events: seq<Event>, t: real, ip: IpAddr) {
    && CapEvictions(events, ip) == 0
    && CountTrue(Answers(rps, m, events, ip)) as real > Credit(rps, Get(m, ip), clock) + Gain(rps, t - clock) - 1.0
  }

  lemma UsedUpNow(rps: nat, m: Buckets, clock: real, s: real, events: seq<Event>, t: real, ip: IpAddr)
    requires clock <= s <= t && (events != [] ==> s <= events[0].now) && CapEvictions(events, ip) == 0
    requires CountTrue(Answers(rps, m, events, ip)) as real > Burst(rps) + Gain(rps, t - s) - 1.0
    ensures UsedUpSince(rps, m, clock, events, t, ip)
  {
    assert UsedUp(rps, m, s, events, t, ip);
  }

  /** One event further back. */
  lemma UsedUpBefore(rps: nat, m: Buckets, clock: real, events: seq<Event>, t: real, ip: IpAddr)
    requires rps >= 1 && Sane(rps, m, clock) && events != [] && clock <= events[0].now <= t
    requires CapEvicts(events[0], ip) == 0
    requires CreditUsedUp(rps, After(rps, m, events[0]), events[0].now, events[1..], t, ip)
    ensures UsedUpSince(rps, m, clock, events, t, ip) || CreditUsedUp(rps, m, clock, events, t, ip)
  {
    var now := events[0].now;
    CreditFloor(rps, m, clock, events[0], ip);
    AnswersStep(rps, m, events, ip);
    GainAdds(rps, now - clock, t - now);
    assert (now - clock) + (t - now) == t - clock;
    if Credit(rps, Get(m, ip), clock) + Gain(rps, now - clock) >= Burst(rps) {
      UsedUpNow(rps, m, clock, now, events, t, ip);
    }
  }

  lemma {:induction false} NoCreditLeft(rps: nat, m: Buckets, clock: real, events: seq<Event>, t: real, ip: IpAddr)
    requires rps >= 1 && Sane(rps, m, clock) && ValidRun(rps, m, clock, events) && clock <= t && EndsBy(events, t)
    requires Credit(rps, Get(Final(rps, m, events), ip), t) < 1.0
    ensures UsedUpSince(rps, m, clock, events, t, ip) || CreditUsedUp(rps, m, clock, events, t, ip)
    decreases |events|
  {
    if events == [] {
      assert SaneEntry(rps, Get(m, ip), clock);
      CreditLater(rps, Get(m, ip), clock, t);
    } else {
      var e, rest := events[0], events[1..];
      var m' := After(rps, m, e);
      StepKeepsSane(rps, m, clock, e);
      EndsByTail(events, t);
      NoCreditLeft(rps, m', e.now, rest, t, ip);
      if !UsedUpSince(rps, m', e.now, rest, t, ip) {
        if CapEvicts(e, ip) == 0 {
          UsedUpBefore(rps, m, clock, events, t, ip);
        } else {
          UsedUpNow(rps, m', e.now, e.now, rest, t, ip);
        }
      }
    }
  }

  lemma {:induction false} UsedUpLeavesNone(rps: nat, m: Buckets, clock: real, events: seq<Event>, t: real, ip: IpAddr)
    requires rps >= 1 && Sane(rps, m, clock) && ValidRun(rps, m, clock, events) && clock <= t && EndsBy(events, t)
    requires UsedUpSince(rps, m, clock, events, t, ip)
    ensures Credit(rps, Get(Final(rps, m, events), ip), t) < 1.0
    decreases |events|
  {
    if s: real :| clock <= s <= t && (events != [] ==> s <= events[0].now) && UsedUp(rps, m, s, events, t, ip) {
      SaneLater(rps, m, clock, s);
      CreditBound(rps, m, s, events, t, ip);
      CreditRange(rps, m, clock, ip, s);
    } else {
      StepKeepsSane(rps, m, clock, events[0]);
      EndsByTail(events, t);
      UsedUpLeavesNone(rps, After(rps, m, events[0]), events[0].now, events[1..], t, ip);
    }
  }

  lemma SaneLater(rps: nat, m: Buckets, clock: real, s: real)
    requires Sane(rps, m, clock) && clock <= s
    ensures Sane(rps, m, s)
  {
    forall ip ensures SaneEntry(rps, Get(m, ip), s) {
      assert SaneEntry(rps, Get(m, ip), clock);
    }
  }

  /**
   Exactly when a check is refused, in every run that starts without an entry for the
   address: if and only if from some moment `s` on, since which the cap has not evicted
   it, the address was admitted more than burst + rps * (t - s) - 1 times.  `BurstIs`
   and `GainIsProduct` give the two terms as numbers.
   */
  lemma RefusedIff(rps: nat, m: Buckets, clock: real, events: seq<Event>, t: real, ip: IpAddr)
    requires rps >= 1 && Sane(rps, m, clock) && ip !in m
    requires ValidRun(rps, m, clock, events) && clock <= t && EndsBy(events, t)
    ensures !CheckIn(rps, Final(rps, m, events), ip, t).1 <==> UsedUpSince(rps, m, clock, events, t, ip)
  {
    FinalSane(rps, m, clock, events, t);
    var f := Final(rps, m, events);
    assert SaneEntry(rps, Get(f, ip), t);
    CheckCosts(rps, Get(f, ip), t);
    if Credit(rps, Get(f, ip), t) < 1.0 {
      NoCreditLeft(rps, m, clock, events, t, ip);
      if CreditUsedUp(rps, m, clock, events, t, ip) {
        UsedUpNow(rps, m, clock, clock, events, t, ip);
      }
    } else if UsedUpSince(rps, m, clock, events, t, ip) {
      UsedUpLeavesNone(rps, m, clock, events, t, ip);
    }
  }

  lemma {:induction false} CreditPasses(rps: nat, m: Buckets, clock: real, events: seq<Event>, ip: IpAddr)
    requires rps >= 1 && Sane(rps, m, clock) && ValidRun(rps, m, clock, events)
    requires |Answers(rps, m, events, ip)| as real <= Credit(rps, Get(m, ip), clock)
    ensures forall i :: 0 <= i < |Answers(rps, m, events, ip)| ==> Answers(rps, m, events, ip)[i]
    decreases |events|
  {
    if events != [] {
      var e := events[0];
      var m' := After(rps, m, e);
      assert SaneEntry(rps, Get(m, ip), clock);
      CreditLater(rps, Get(m, ip), clock, e.now);
      GainAdds(rps, e.now - clock, 0.0);
      CreditFloor(rps, m, clock, e, ip);
      CreditRange(rps, m, clock, ip, clock);
      if e.Check? && e.ip == ip {
        CheckCosts(rps, Get(m, ip), e.now);
      }
      StepKeepsSane(rps, m, clock, e);
      CreditPasses(rps, m', e.now, events[1..], ip);
    }
  }

  /** So the first 10 checks of an address without an entry pass, or 5 * rps if that is
      more, whenever they come and whatever else happens; without a limit all do. */
  lemma FirstChecksPass(rps: nat, m: Buckets, clock: real, events: seq<Event>, ip: IpAddr)
    requires Sane(rps, m, clock) && ValidRun(rps, m, clock, events) && ip !in m
    requires var n := |Answers(rps, m, events, ip)|; rps == 0 || n <= 10 || (n <= 5 * rps && n < 0x1_0000_0000)
    ensures forall i :: 0 <= i < |Answers(rps, m, events, ip)| ==> Answers(rps, m, events, ip)[i]
  {
    if rps == 0 {
      UnlimitedPasses(m, events, ip);
    } else {
      BurstIs(rps);
      CreditPasses(rps, m, clock, events, ip);
    }
  }

  lemma {:induction false} UnlimitedPasses(m: Buckets, events: seq<Event>, ip: IpAddr)
    ensures forall i :: 0 <= i < |Answers(0, m, events, ip)| ==> Answers(0, m, events, ip)[i]
    decreases |events|
  {
    if events != [] {
      UnlimitedPasses(After(0, m, events[0]), events[1..], ip);
    }
  }
}
