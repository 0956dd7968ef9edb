/**
 Backend selection (gateway/src/lb.rs): weighted round robin over a counter
 that is truncated to 32 bits, round robin, least connections, and the shared
 connection counter.
 */
module LoadBalancer {
  import opened Basics
  import opened Modular

  datatype Backend = Backend(id: string, host: string, port: nat, weight: nat, healthy: bool, active: nat)

  datatype Strategy = RoundRobin | IpHash | WeightedRoundRobin | LeastConnections

  /** `weight.max(1)` */
  function Effective(weight: nat): nat {
    if weight < 1 then 1 else weight
  }

  function Weights(bs: seq<Backend>): (ws: seq<nat>)
    ensures |ws| == |bs| && Positive(ws)
    ensures forall i :: 0 <= i < |bs| ==> ws[i] == if bs[i].weight == 0 then 1 else bs[i].weight
  {
    seq(|bs|, i requires 0 <= i < |bs| => Effective(bs[i].weight))
  }

  predicate Positive(ws: seq<nat>) {
    forall i :: 0 <= i < |ws| ==> ws[i] >= 1
  }

  function Sum(ws: seq<nat>): nat {
    if ws == [] then 0 else ws[0] + Sum(ws[1..])
  }

  /** The slot owner of position `pos` when backend `i` owns `ws[i]` consecutive slots. */
  function Owner(ws: seq<nat>, pos: nat): (i: nat)
    requires pos < Sum(ws)
    ensures i < |ws|
  {
    if pos < ws[0] then 0 else 1 + Owner(ws[1..], pos - ws[0])
  }

  lemma {:induction false} SumAppend(a: seq<nat>, b: seq<nat>)
    ensures Sum(a + b) == Sum(a) + Sum(b)
  {
    if a == [] {
      assert a + b == b;
    } else {
      SumAppend(a[1..], b);
      assert (a + b)[1..] == a[1..] + b;
    }
  }

  lemma SumUpTo(ws: seq<nat>, i: nat)
    requires i < |ws|
    ensures Sum(ws[..i + 1]) == Sum(ws[..i]) + ws[i] <= Sum(ws)
  {
    assert ws[..i + 1] == ws[..i] + [ws[i]];
    SumAppend(ws[..i], [ws[i]]);
    assert ws == ws[..i + 1] + ws[i + 1..];
    SumAppend(ws[..i + 1], ws[i + 1..]);
    assert [ws[i]][1..] == [];
  }

  /** Backend `i` owns exactly the positions from the sum of the weights before
      it to that sum plus its own weight. */
  lemma {:induction false} OwnerRange(ws: seq<nat>, pos: nat, i: nat)
    requires pos < Sum(ws) && i < |ws|
    ensures Owner(ws, pos) == i <==> Sum(ws[..i]) <= pos < Sum(ws[..i]) + ws[i]
    decreases |ws|
  {
    if i == 0 {
      assert ws[..0] == [];
    } else {
      assert ws[..i][1..] == ws[1..][..i - 1];
      if pos >= ws[0] { OwnerRange(ws[1..], pos - ws[0], i - 1); }
    }
  }

  // ---------------------------------------------------------------------------
  // The balancer object
  // ---------------------------------------------------------------------------

  function Healthy(bs: seq<Backend>): seq<Backend> {
    if bs == [] then []
    else Healthy(bs[..|bs| - 1]) + (if bs[|bs| - 1].healthy then [bs[|bs| - 1]] else [])
  }

  lemma {:induction false} HealthyMembers(bs: seq<Backend>)
    ensures forall b :: b in Healthy(bs) <==> b in bs && b.healthy
    decreases |bs|
  {
    if bs != [] {
      HealthyMembers(bs[..|bs| - 1]);
      assert bs == bs[..|bs| - 1] + [bs[|bs| - 1]];
    }
  }

  lemma HealthyOneMore(bs: seq<Backend>, b: Backend)
    ensures Healthy(bs + [b]) == Healthy(bs) + (if b.healthy then [b] else [])
  {
    assert (bs + [b])[..|bs|] == bs;
  }

  /** Every backend has its place, once, between the healthy ones before and after it,
      if it is healthy. */
  lemma {:induction false} HealthyKeepsOrder(a: seq<Backend>, b: Backend, c: seq<Backend>)
    ensures Healthy(a + [b] + c) == Healthy(a) + (if b.healthy then [b] else []) + Healthy(c)
    decreases |c|
  {
    HealthyOneMore(a, b);
    if c == [] {
      assert a + [b] + c == a + [b];
    } else {
      var init, last := c[..|c| - 1], c[|c| - 1];
      assert c == init + [last];
      HealthyKeepsOrder(a, b, init);
      HealthyOneMore(a + [b] + init, last);
      HealthyOneMore(init, last);
      Assoc(a + [b], init, [last]);
      Assoc(Healthy(a) + (if b.healthy then [b] else []), Healthy(init), if last.healthy then [last] else []);
    }
  }

  lemma Assoc(a: seq<Backend>, b: seq<Backend>, c: seq<Backend>)
    ensures a + b + c == a + (b + c)
  {
  }

  /** First index with the smallest count (`min_by_key`). */
  function LeastIndex(cs: seq<nat>): (k: nat)
    requires cs != []
    ensures k < |cs|
    ensures forall i :: 0 <= i < |cs| ==> cs[k] <= cs[i]
    ensures forall i :: 0 <= i < k ==> cs[k] < cs[i]
  {
    if |cs| == 1 then 0
    else
      var r := 1 + LeastIndex(cs[1..]);
      assert forall i :: 1 <= i < |cs| ==> cs[i] == cs[1..][i - 1];
      if cs[0] <= cs[r] then 0 else r
  }

  function Actives(bs: seq<Backend>): (cs: seq<nat>)
    ensures |cs| == |bs| && forall i :: 0 <= i < |bs| ==> cs[i] == bs[i].active
  {
    seq(|bs|, i requires 0 <= i < |bs| => bs[i].active)
  }

  /** Backend `i` is the first of those with the fewest connections. */
  predicate FirstLeast(bs: seq<Backend>, i: nat) {
    && i < |bs| && (forall j :: 0 <= j < |bs| ==> bs[i].active <= bs[j].active)
    && forall j :: 0 <= j < i ==> bs[i].active < bs[j].active
  }

  /** A sum of 32-bit numbers, wrapping around. */
  function Wrap(x: nat): nat {
    x % U32
  }

  /** The sum of the first `k` weights in 32-bit arithmetic. */
  function Cumulative(ws: seq<nat>, k: nat): nat
    requires k <= |ws|
  {
    if k == 0 then 0 else Wrap(Cumulative(ws, k - 1) + ws[k - 1])
  }

  /** `i` is the first backend whose cumulative weight exceeds `pos`. */
  predicate FirstAbove(ws: seq<nat>, pos: nat, i: nat) {
    i < |ws| && pos < Cumulative(ws, i + 1) && forall j :: 0 <= j <= i ==> Cumulative(ws, j) <= pos
  }

  lemma WrapAdd(x: nat, y: nat)
    ensures Wrap(Wrap(x) + y) == Wrap(x + y)
  {
  }

  lemma {:induction false} CumulativeIsSum(ws: seq<nat>, k: nat)
    requires k <= |ws|
    ensures Cumulative(ws, k) == Sum(ws[..k]) % 0x1_0000_0000
    decreases k
  {
    if k > 0 {
      CumulativeIsSum(ws, k - 1);
      SumUpTo(ws, k - 1);
      WrapAdd(Sum(ws[..k - 1]), ws[k - 1]);
    }
  }

  /** The cumulative walk in wrapping arithmetic.  Even when the weights overflow
      it stops at a backend, so the fallback after the loop is never reached. */
  method WeightedIndex(bs: seq<Backend>, pos: nat) returns (i: nat)
    requires pos < Cumulative(Weights(bs), |Weights(bs)|)
    ensures FirstAbove(Weights(bs), pos, i)
  {
    ghost var ws := Weights(bs);
    var cumulative := 0;
    for k := 0 to |bs|
      invariant cumulative == Cumulative(ws, k)
      invariant forall j :: 0 <= j <= k ==> Cumulative(ws, j) <= pos
    {
      cumulative := Wrap(cumulative + Effective(bs[k].weight));
      if pos < cumulative {
        return k;
      }
    }
    assert false;
  }

  lemma {:induction false} SumMonotone(ws: seq<nat>, k: nat)
    requires k <= |ws|
    ensures Sum(ws[..k]) <= Sum(ws)
  {
    assert ws == ws[..k] + ws[k..];
    SumAppend(ws[..k], ws[k..]);
  }

  /** Without overflow the walk finds the owner of the slot. */
  lemma FirstIsOwner(ws: seq<nat>, pos: nat, i: nat)
    requires Sum(ws) < U32 && pos < Sum(ws) && FirstAbove(ws, pos, i)
    ensures i == Owner(ws, pos)
  {
    SumUpTo(ws, i);
    CumulativeIsSum(ws, i);
    CumulativeIsSum(ws, i + 1);
    SumMonotone(ws, i);
    OwnerRange(ws, pos, i);
  }

  lemma TotalWraps(ws: seq<nat>)
    requires Positive(ws) && ws != []
    ensures Sum(ws) > 0 && Cumulative(ws, |ws|) == Wrap(Sum(ws)) && (Sum(ws) < U32 ==> Cumulative(ws, |ws|) == Sum(ws))
  {
    CumulativeIsSum(ws, |ws|);
    assert ws[..|ws|] == ws;
  }

  /** The weighted pick for counter value `c`: without overflow the owner of the slot;
      otherwise still a definite backend. */
  ghost predicate Picks(ws: seq<nat>, c: nat, i: nat) {
    && (0 < Sum(ws) < U32 ==> i == Owner(ws, c % U32 % Sum(ws)))
    && (|ws| > 0 && Wrap(Sum(ws)) == 0 ==> i == c % |ws|)
    && (Wrap(Sum(ws)) > 0 ==> FirstAbove(ws, c % U32 % Wrap(Sum(ws)), i))
  }

  lemma PicksIs(ws: seq<nat>, c: nat, pos: nat, i: nat)
    requires Positive(ws) && ws != [] && Wrap(Sum(ws)) > 0 && pos == c % U32 % Wrap(Sum(ws)) && FirstAbove(ws, pos, i)
    ensures Picks(ws, c, i)
  {
    TotalWraps(ws);
    if Sum(ws) < U32 {
      FirstIsOwner(ws, pos, i);
    }
  }

  /** What each strategy picks from a list of backends. */
  ghost predicate PicksBy(strategy: Strategy, bs: seq<Backend>, counter: nat, hash: nat, i: nat)
    requires bs != []
  {
    match strategy
    case RoundRobin => i == counter % |bs|
    case IpHash => i == hash % |bs|
    case WeightedRoundRobin => Picks(Weights(bs), counter, i)
    case LeastConnections => FirstLeast(bs, i)
  }

  class Balancer {
    const strategy: Strategy
    var backends: seq<Backend>
    var counter: nat          // AtomicUsize

    constructor (strategy: Strategy)
      ensures this.strategy == strategy && backends == [] && counter == 0
    {
      this.strategy, backends, counter := strategy, [], 0;
    }

    method FetchAdd() returns (before: nat)
      modifies this`counter
      ensures before == old(counter) && counter == (old(counter) + 1) % U64
    {
      before := counter;
      counter := (counter + 1) % U64;
    }

    /** A total weight that overflows to zero falls back to round robin. */
    method PickWeighted(bs: seq<Backend>) returns (i: nat)
      requires bs != []
      modifies this`counter
      ensures i < |bs| && counter == (old(counter) + 1) % U64 && Picks(Weights(bs), old(counter), i)
    {
      var total := Cumulative(Weights(bs), |bs|);
      TotalWraps(Weights(bs));
      var before := FetchAdd();
      if total == 0 {
        return before % |bs|;
      }
      var pos := before % U32 % total;
      i := WeightedIndex(bs, pos);
      PicksIs(Weights(bs), before, pos, i);
    }

    /** `None` only when there is no backend at all; with none healthy the
        balancer rotates over all of them. */
    method NextBackend(hash: nat) returns (r: Option<Backend>)
      modifies this`counter
      ensures counter ==
        if backends == [] || (Healthy(backends) != [] && strategy in {IpHash, LeastConnections}) then old(counter)
        else (old(counter) + 1) % U64
      ensures r.None? <==> backends == []
      ensures r.Some? ==> r.value in backends && (Healthy(backends) != [] ==> r.value.healthy)
      ensures Healthy(backends) == [] && backends != [] ==> r.value == backends[old(counter) % |backends|]
      ensures Healthy(backends) != [] ==>
        exists i :: 0 <= i < |Healthy(backends)| && r.value == Healthy(backends)[i]
                    && PicksBy(strategy, Healthy(backends), old(counter), hash, i)
    {
      var healthy := Healthy(backends);
      if healthy == [] {
        if backends == [] { return None; }
        var before := FetchAdd();
        return Some(backends[before % |backends|]);
      }
      HealthyMembers(backends);
      var i := PickHealthy(healthy, hash);
      return Some(healthy[i]);
    }

    method PickHealthy(healthy: seq<Backend>, hash: nat) returns (i: nat)
      requires healthy != []
      modifies this`counter
      ensures i < |healthy| && PicksBy(strategy, healthy, old(counter), hash, i)
      ensures counter == if strategy in {IpHash, LeastConnections} then old(counter) else (old(counter) + 1) % U64
    {
      match strategy
      case RoundRobin =>
        var before := FetchAdd();
        return before % |healthy|;
      case IpHash =>
        return hash % |healthy|;
      case WeightedRoundRobin =>
        i := PickWeighted(healthy);
      case LeastConnections =>
        return LeastIndex(Actives(healthy));
    }
  }

  // ---------------------------------------------------------------------------
  // Fairness of the weighted walk
  // ---------------------------------------------------------------------------

  /** The slot that counter value `c` selects when truncated modulo `m`. */
  function Slot(w: nat, m: nat, c: nat): (s: nat)
    requires m > 0 && w > 0
    ensures s < w
  {
    Rem(Rem(c, m), w)
  }

  /** The slots of the code: the counter wraps at 2^64, is truncated to `u32`
      and reduced modulo the total weight. */
  lemma SlotIsTruncated(w: nat, c: nat)
    requires w > 0
    ensures Slot(w, U32, c) == c % U64 % U32 % w
  {
    RemIsMod(c, U64);
    RemIsMod(c, U32);
    RemIsMod(c % U64, U32);
    RemIsMod(U64, U32);
    RemRem(c, U64, U32);
    RemIsMod(c % U32, w);
  }

  /** 1 when counter value `c` selects backend `i`. */
  function Hit(ws: seq<nat>, i: nat, m: nat, c: nat): nat
    requires m > 0 && Sum(ws) > 0
  {
    if Owner(ws, Slot(Sum(ws), m, c)) == i then 1 else 0
  }

  /** How often the `n` counter values from `c` on select backend `i`. */
  function Hits(ws: seq<nat>, i: nat, m: nat, c: nat, n: nat): nat
    requires m > 0 && Sum(ws) > 0
  {
    if n == 0 then 0 else Hits(ws, i, m, c, n - 1) + Hit(ws, i, m, c + n - 1)
  }

  lemma {:induction false} HitsSplit(ws: seq<nat>, i: nat, m: nat, c: nat, n: nat, a: nat)
    requires m > 0 && Sum(ws) > 0 && a <= n
    ensures Hits(ws, i, m, c, n) == Hits(ws, i, m, c, a) + Hits(ws, i, m, c + a, n - a)
    decreases n
  {
    if a < n { HitsSplit(ws, i, m, c, n - 1, a); }
  }

  /** Two stretches of the counter that agree slot by slot agree in hits. */
  lemma {:induction false} HitsAgree(ws: seq<nat>, i: nat, m: nat, c: nat, m': nat, c': nat, n: nat)
    requires m > 0 && m' > 0 && Sum(ws) > 0
    requires forall x :: c <= x < c + n ==> Slot(Sum(ws), m, x) == Slot(Sum(ws), m', x - c + c')
    ensures Hits(ws, i, m, c, n) == Hits(ws, i, m', c', n)
    decreases n
  {
    if n > 0 {
      HitsAgree(ws, i, m, c, m', c', n - 1);
      assert Slot(Sum(ws), m, c + n - 1) == Slot(Sum(ws), m', c + n - 1 - c + c');
    }
  }

  /** Overlap of the first `n` positions with the slots of backend `i`. */
  function Overlap(ws: seq<nat>, i: nat, n: nat): nat
    requires i < |ws|
  {
    var low := Sum(ws[..i]);
    if n <= low then 0 else Min(n - low, ws[i])
  }

  /** From position 0, `n <= W` steps select `i` once per slot passed. */
  lemma {:induction false} HitsFromZero(ws: seq<nat>, i: nat, n: nat)
    requires i < |ws| && Sum(ws) > 0 && n <= Sum(ws)
    ensures Hits(ws, i, Sum(ws), 0, n) == Overlap(ws, i, n)
    decreases n
  {
    if n > 0 {
      HitsFromZero(ws, i, n - 1);
      OwnerRange(ws, n - 1, i);
      assert Slot(Sum(ws), Sum(ws), n - 1) == n - 1;
    }
  }

  /** Shifting a window by one swaps two counter values of the same slot, so
      every window of `W` gives backend `i` exactly its weight. */
  lemma {:induction false} WindowIsFair(ws: seq<nat>, i: nat, c: nat)
    requires i < |ws| && Sum(ws) > 0
    ensures Hits(ws, i, Sum(ws), c, Sum(ws)) == ws[i]
    decreases c
  {
    var w := Sum(ws);
    if c == 0 {
      HitsFromZero(ws, i, w);
      SumUpTo(ws, i);
    } else {
      WindowIsFair(ws, i, c - 1);
      HitsSplit(ws, i, w, c - 1, w, 1);
      HitsSplit(ws, i, w, c, w, w - 1);
      assert Hits(ws, i, w, c - 1, 1) == Hit(ws, i, w, c - 1);
      assert Hits(ws, i, w, c + (w - 1), 1) == Hit(ws, i, w, c - 1 + w);
      assert Rem(c - 1 + w, w) == Rem(c - 1, w);
    }
  }

  /** As long as the truncation does not wrap, it is invisible. */
  lemma NoWrap(ws: seq<nat>, i: nat, m: nat, c: nat, n: nat)
    requires m > 0 && Sum(ws) > 0 && Rem(c, m) + n <= m
    ensures Hits(ws, i, m, c, n) == Hits(ws, i, Sum(ws), Rem(c, m), n)
  {
    var w := Sum(ws);
    forall x | c <= x < c + n
      ensures Slot(w, m, x) == Slot(w, w, x - c + Rem(c, m))
    {
      RemAdd(c, x - c, m);
      RemDrop(x - c + Rem(c, m), w);
    }
    HitsAgree(ws, i, m, c, w, Rem(c, m), n);
  }

  /** `ws` are the weights as configured, with 1 for 0. */
  predicate ConfiguredWeights(bs: seq<Backend>, ws: seq<nat>) {
    |ws| == |bs| && forall i :: 0 <= i < |bs| ==> ws[i] == if bs[i].weight == 0 then 1 else bs[i].weight
  }

  /**
   Weighted round robin is exactly fair: as many consecutive calls as the configured
   weights sum up to, a weight of 0 counting as 1, pick each backend exactly as often
   as its weight says, unless they cross the 32-bit wrap.
   */
  lemma ExactlyFair(bs: seq<Backend>, ws: seq<nat>, i: nat, c: nat)
    requires i < |bs| && ConfiguredWeights(bs, ws) && c % U32 + Sum(ws) <= U32
    ensures Sum(ws) > 0 && Hits(Weights(bs), i, U32, c, Sum(ws)) == if bs[i].weight == 0 then 1 else bs[i].weight
  {
    assert ws == Weights(bs);
    RemIsMod(c, U32);
    SumUpTo(ws, i);
    NoWrap(ws, i, U32, c, Sum(ws));
    WindowIsFair(ws, i, Rem(c, U32));
  }

  /** Without a wrap, `n` calls give each backend between `n / W` and
      `n / W + 1` times its weight. */
  lemma {:induction false} StretchBounds(ws: seq<nat>, i: nat, c: nat, n: nat)
    requires i < |ws| && Sum(ws) > 0
    ensures Times(Quot(n, Sum(ws)), ws[i]) <= Hits(ws, i, Sum(ws), c, n) <= Times(Quot(n, Sum(ws)) + 1, ws[i])
    decreases n
  {
    var w := Sum(ws);
    WindowIsFair(ws, i, c);
    if n < w {
      HitsSplit(ws, i, w, c, w, n);
    } else {
      HitsSplit(ws, i, w, c, n, w);
      StretchBounds(ws, i, c + w, n - w);
    }
  }

  /** Bounds of a first stretch and of the rest, added up. */
  lemma AddBounds(a: nat, b: nat, z: nat, k: nat, x: nat, y: nat, w: nat)
    requires z - 1 <= a + b <= z
    requires Times(a, w) <= x <= Times(a + 1, w)
    requires Times(b, w) <= y + Times(k, w) && y <= Times(b + k + 1, w)
    ensures Times(z, w) <= x + y + Times(k + 1, w) && x + y <= Times(z + k + 2, w)
  {
    TimesAdd(a, b, w);
    TimesAdd(a + 1, b + k + 1, w);
    TimesAdd(a + b, z - (a + b), w);
    TimesAdd(a + b + k + 2, z - (a + b), w);
  }

  /** The stretch up to the next wrap. */
  lemma FirstLap(ws: seq<nat>, i: nat, m: nat, c: nat)
    requires i < |ws| && m > 0 && Sum(ws) > 0
    ensures var first := m - Rem(c, m);
      && Rem(c + first, m) == 0
      && Times(Quot(first, Sum(ws)), ws[i]) <= Hits(ws, i, m, c, first) <= Times(Quot(first, Sum(ws)) + 1, ws[i])
  {
    RemWraps(c, m);
    NoWrap(ws, i, m, c, m - Rem(c, m));
    StretchBounds(ws, i, Rem(c, m), m - Rem(c, m));
  }

  /** `h` hits in `n` calls, within `k` weights below and `k + 1` above the fair share. */
  predicate NearlyFair(n: nat, w: nat, weight: nat, k: nat, h: nat)
    requires w > 0
  {
    Times(Quot(n, w), weight) <= h + Times(k, weight) && h <= Times(Quot(n, w) + k + 1, weight)
  }

  lemma NearlyFairOneLap(ws: seq<nat>, i: nat, m: nat, c: nat, n: nat, k: nat)
    requires i < |ws| && m > 0 && Sum(ws) > 0 && Rem(c, m) + n <= m
    ensures NearlyFair(n, Sum(ws), ws[i], k, Hits(ws, i, m, c, n))
  {
    NoWrap(ws, i, m, c, n);
    StretchBounds(ws, i, Rem(c, m), n);
    TimesAdd(Quot(n, Sum(ws)) + 1, k, ws[i]);
  }

  lemma NearlyFairNextLap(n: nat, first: nat, w: nat, weight: nat, k: nat, x: nat, y: nat)
    requires w > 0 && first <= n
    requires Times(Quot(first, w), weight) <= x <= Times(Quot(first, w) + 1, weight)
    requires NearlyFair(n - first, w, weight, k, y)
    ensures NearlyFair(n, w, weight, k + 1, x + y)
  {
    QuotAdd(first, n - first, w);
    AddBounds(Quot(first, w), Quot(n - first, w), Quot(n, w), k, x, y, weight);
  }

  lemma {:induction false} WrapBounds(ws: seq<nat>, i: nat, m: nat, c: nat, n: nat, k: nat)
    requires i < |ws| && m > 0 && Sum(ws) > 0 && Rem(c, m) + n <= Times(k + 1, m)
    ensures NearlyFair(n, Sum(ws), ws[i], k, Hits(ws, i, m, c, n))
    decreases k
  {
    if Rem(c, m) + n <= m {
      NearlyFairOneLap(ws, i, m, c, n, k);
    } else {
      var first := m - Rem(c, m);
      RemWraps(c, m);
      WrapBounds(ws, i, m, c + first, n - first, k - 1);
      AddFirstLap(ws, i, m, c, n, first, k - 1);
    }
  }

  lemma AddFirstLap(ws: seq<nat>, i: nat, m: nat, c: nat, n: nat, first: nat, k: nat)
    requires i < |ws| && m > 0 && Sum(ws) > 0 && first == m - Rem(c, m) && first <= n
    requires NearlyFair(n - first, Sum(ws), ws[i], k, Hits(ws, i, m, c + first, n - first))
    ensures NearlyFair(n, Sum(ws), ws[i], k + 1, Hits(ws, i, m, c, n))
  {
    FirstLap(ws, i, m, c);
    HitsSplit(ws, i, m, c, n, first);
    NearlyFairNextLap(n, first, Sum(ws), ws[i], k, Hits(ws, i, m, c, first), Hits(ws, i, m, c + first, n - first));
  }

  /**
   Across at most `k` wraps of the truncated counter, `n` calls pick backend
   `i` between `n / W - k` and `n / W + k + 1` times its weight.
   */
  lemma FairAcrossWraps(ws: seq<nat>, i: nat, m: nat, c: nat, n: nat, k: nat)
    requires i < |ws| && m > 0 && Sum(ws) > 0 && c % m + n <= (k + 1) * m
    ensures n / Sum(ws) * ws[i] <= Hits(ws, i, m, c, n) + k * ws[i]
    ensures Hits(ws, i, m, c, n) <= (n / Sum(ws) + k + 1) * ws[i]
  {
    RemIsMod(c, m);
    RemIsMod(n, Sum(ws));
    TimesIsMul(k + 1, m);
    WrapBounds(ws, i, m, c, n, k);
    TimesIsMul(n / Sum(ws), ws[i]);
    TimesIsMul(k, ws[i]);
    TimesIsMul(n / Sum(ws) + k + 1, ws[i]);
  }

  ghost predicate AlwaysFair(ws: seq<nat>, m: nat)
    requires m > 0 && Sum(ws) > 0
  {
    forall c: nat, i: nat :: i < |ws| ==> Hits(ws, i, m, c, Sum(ws)) == ws[i]
  }

  /** Counting from a multiple of `W` is counting from zero. */
  lemma HitsFromMultiple(ws: seq<nat>, i: nat, c: nat, n: nat)
    requires Sum(ws) > 0 && Rem(c, Sum(ws)) == 0
    ensures Hits(ws, i, Sum(ws), c, n) == Hits(ws, i, Sum(ws), 0, n)
  {
    var w := Sum(ws);
    forall x | c <= x < c + n ensures Slot(w, w, x) == Slot(w, w, x - c + 0) {
      RemAddMultiple(x - c, c, w);
    }
    HitsAgree(ws, i, w, c, w, 0, n);
  }

  /** The window that starts `m % W` calls before the wrap, at a multiple of
      `W`, splits into two stretches that both start at slot 0. */
  lemma WindowAtWrap(ws: seq<nat>, i: nat, m: nat)
    requires i < |ws| && 0 < Sum(ws) <= m
    ensures var r := Rem(m, Sum(ws));
      r <= m && Hits(ws, i, m, m - r, Sum(ws)) == Overlap(ws, i, r) + Overlap(ws, i, Sum(ws) - r)
  {
    var w := Sum(ws);
    var r := Rem(m, w);
    RemDrop(m, w);
    var c := m - r;
    HitsSplit(ws, i, m, c, w, r);
    BeforeWrap(ws, i, m, c, r);
    AfterWrap(ws, i, m, w - r);
  }

  lemma AfterWrap(ws: seq<nat>, i: nat, m: nat, n: nat)
    requires i < |ws| && 0 < Sum(ws) <= m && n <= Sum(ws)
    ensures Hits(ws, i, m, m, n) == Overlap(ws, i, n)
  {
    NoWrap(ws, i, m, m, n);
    HitsFromZero(ws, i, n);
  }

  lemma BeforeWrap(ws: seq<nat>, i: nat, m: nat, c: nat, r: nat)
    requires i < |ws| && 0 < Sum(ws) <= m && r <= Sum(ws) && c + r == m && Rem(c, Sum(ws)) == 0
    ensures Hits(ws, i, m, c, r) == Overlap(ws, i, r)
  {
    if r > 0 {
      NoWrap(ws, i, m, c, r);
      HitsFromMultiple(ws, i, c, r);
    }
    HitsFromZero(ws, i, r);
  }

  /** Unless `W` divides the range, that window hands the first backend too
      many turns. */
  lemma UnfairWindow(ws: seq<nat>, m: nat)
    requires Positive(ws) && |ws| >= 2 && 0 < Sum(ws) <= m && Rem(m, Sum(ws)) != 0
    ensures Rem(m, Sum(ws)) <= m && Hits(ws, 0, m, m - Rem(m, Sum(ws)), Sum(ws)) > ws[0]
  {
    WindowAtWrap(ws, 0, m);
    SumUpTo(ws, 1);
    SumUpTo(ws, 0);
    assert ws[..0] == [];
  }

  lemma FairIffDivides(ws: seq<nat>, m: nat)
    requires Positive(ws) && ws != [] && 0 < Sum(ws) <= m
    ensures AlwaysFair(ws, m) <==> |ws| == 1 || Rem(m, Sum(ws)) == 0
  {
    var w := Sum(ws);
    if Rem(m, w) == 0 {
      forall c: nat, i: nat | i < |ws| ensures Hits(ws, i, m, c, w) == ws[i] {
        DividesIsInvisible(ws, i, m, c);
        WindowIsFair(ws, i, c);
      }
    } else if |ws| == 1 {
      forall c: nat, i: nat | i < |ws| ensures Hits(ws, i, m, c, w) == ws[i] {
        OnlyBackend(ws, m, c, w);
        assert ws[1..] == [];
      }
    } else {
      UnfairWindow(ws, m);
    }
  }

  /** Every window of as many calls as the weights sum up to is fair. */
  ghost predicate FairToAll(bs: seq<Backend>, ws: seq<nat>, m: nat)
    requires m > 0 && Sum(Weights(bs)) > 0
  {
    forall c: nat, i: nat :: i < |bs| ==>
      Hits(Weights(bs), i, m, c, Sum(ws)) == if bs[i].weight == 0 then 1 else bs[i].weight
  }

  /**
   Exactly when the wrap of a counter with range `m` does no harm: every window is
   fair if and only if there is a single backend or the sum of the configured weights
   divides the range.
   */
  lemma FairForever(bs: seq<Backend>, ws: seq<nat>, m: nat)
    requires bs != [] && ConfiguredWeights(bs, ws) && Sum(ws) <= m
    ensures 0 < Sum(Weights(bs)) <= m && (FairToAll(bs, ws, m) <==> |bs| == 1 || m % Sum(ws) == 0)
  {
    assert ws == Weights(bs);
    SumUpTo(ws, 0);
    RemIsMod(m, Sum(ws));
    FairIffDivides(ws, m);
    if AlwaysFair(ws, m) {
      forall c: nat, i: nat | i < |bs|
        ensures Hits(Weights(bs), i, m, c, Sum(ws)) == if bs[i].weight == 0 then 1 else bs[i].weight
      {
      }
    } else {
      var c: nat, i: nat :| i < |ws| && Hits(ws, i, m, c, Sum(ws)) != ws[i];
    }
  }

  lemma DividesIsInvisible(ws: seq<nat>, i: nat, m: nat, c: nat)
    requires m > 0 && Sum(ws) > 0 && Rem(m, Sum(ws)) == 0
    ensures Hits(ws, i, m, c, Sum(ws)) == Hits(ws, i, Sum(ws), c, Sum(ws))
  {
    var w := Sum(ws);
    forall x | c <= x < c + w ensures Slot(w, m, x) == Slot(w, w, x - c + c) {
      RemRem(x, m, w);
      RemRem(x, w, w);
    }
    HitsAgree(ws, i, m, c, w, c, w);
  }

  lemma {:induction false} OnlyBackend(ws: seq<nat>, m: nat, c: nat, n: nat)
    requires |ws| == 1 && m > 0 && Sum(ws) > 0
    ensures Hits(ws, 0, m, c, n) == n
    decreases n
  {
    if n > 0 { OnlyBackend(ws, m, c, n - 1); }
  }

  // ---------------------------------------------------------------------------
  // Least connections
  // ---------------------------------------------------------------------------

  /** Pick the least loaded backend and acquire a connection on it, `n` times. */
  function AcquireRun(cs: seq<nat>, n: nat): (r: seq<nat>)
    requires cs != []
    ensures |r| == |cs|
  {
    if n == 0 then cs
    else AcquireLeast(AcquireRun(cs, n - 1))
  }

  function AcquireLeast(cs: seq<nat>): (r: seq<nat>)
    requires cs != []
    ensures |r| == |cs|
  {
    var k := LeastIndex(cs); cs[k := cs[k] + 1]
  }

  ghost predicate Balanced(cs: seq<nat>) {
    forall i, j :: 0 <= i < |cs| && 0 <= j < |cs| ==> cs[i] <= cs[j] + 1
  }

  /** Once the counts are within one of each other they stay so. */
  lemma {:induction false} StaysBalanced(cs: seq<nat>, n: nat)
    requires cs != [] && Balanced(cs)
    ensures Balanced(AcquireRun(cs, n))
  {
    if n > 0 { StaysBalanced(cs, n - 1); }
  }

  /** `n` acquisitions handed out in turn to backends that held `base` each. */
  ghost predicate Rotated(cs: seq<nat>, base: nat, n: nat)
    requires cs != []
  {
    forall i :: 0 <= i < |cs| ==> cs[i] == base + Quot(n, |cs|) + (if i < Rem(n, |cs|) then 1 else 0)
  }

  /** In a rotation the first of the least loaded backends is the one whose
      turn it is. */
  lemma RotationTurn(cs: seq<nat>, base: nat, n: nat)
    requires cs != [] && Rotated(cs, base, n)
    ensures LeastIndex(cs) == Rem(n, |cs|)
  {
    var k := LeastIndex(cs);
    assert cs[Rem(n, |cs|)] == base + Quot(n, |cs|);
    assert cs[k] <= cs[Rem(n, |cs|)];
  }

  lemma RotationStep(cs: seq<nat>, base: nat, n: nat)
    requires cs != [] && Rotated(cs, base, n)
    ensures Rotated(AcquireLeast(cs), base, n + 1)
  {
    RotationTurn(cs, base, n);
    NextTurn(n, |cs|);
  }

  /** From equal counts, least connections is round robin: after `n` rounds
      backend `i` has had `n / L` turns, plus one if `i < n % L`. */
  lemma {:induction false} LeastConnectionsRotates(cs: seq<nat>, base: nat, n: nat)
    requires cs != [] && forall i :: 0 <= i < |cs| ==> cs[i] == base
    ensures Rotated(AcquireRun(cs, n), base, n)
    decreases n
  {
    if n > 0 {
      LeastConnectionsRotates(cs, base, n - 1);
      RotationStep(AcquireRun(cs, n - 1), base, n - 1);
    }
  }

  lemma {:induction false} NextTurn(n: nat, l: nat)
    requires l > 0
    ensures Rem(n, l) + 1 < l ==> Quot(n + 1, l) == Quot(n, l) && Rem(n + 1, l) == Rem(n, l) + 1
    ensures Rem(n, l) + 1 == l ==> Quot(n + 1, l) == Quot(n, l) + 1 && Rem(n + 1, l) == 0
    decreases n
  {
    if n >= l { NextTurn(n - l, l); }
  }

  // ---------------------------------------------------------------------------
  // The shared connection counter
  // ---------------------------------------------------------------------------

  /** `value` is the atomic; `held` the connections acquired and not yet
      released; `repairing` the releases that read 0 and will store 0. */
  datatype Conns = Conns(value: nat, held: set<nat>, repairing: multiset<nat>)

  datatype ConnStep = Acquire(id: nat) | Release(id: nat) | Repair(id: nat)

  /** A release follows its own acquire.  `usize` bounds the open connections. */
  predicate ConnEnabled(s: Conns, step: ConnStep) {
    match step
    case Acquire(id) => id !in s.held && |s.held| + 1 < U64
    case Release(id) => id in s.held
    case Repair(id) => id in s.repairing
  }

  /** `fetch_add`, `fetch_sub` and the conditional `store(0)`, one atomic operation each. */
  function ConnApply(s: Conns, step: ConnStep): Conns {
    match step
    case Acquire(id) => s.(value := (s.value + 1) % U64, held := s.held + {id})
    case Release(id) =>
      Conns((s.value + U64 - 1) % U64, s.held - {id}, if s.value == 0 then s.repairing + multiset{id} else s.repairing)
    case Repair(id) => s.(value := 0, repairing := s.repairing - multiset{id})
  }

  predicate ConnRun(s: Conns, steps: seq<ConnStep>)
    decreases |steps|
  {
    steps == [] || (ConnEnabled(s, steps[0]) && ConnRun(ConnApply(s, steps[0]), steps[1..]))
  }

  function ConnExec(s: Conns, steps: seq<ConnStep>): Conns
    decreases |steps|
  {
    if steps == [] then s else ConnExec(ConnApply(s, steps[0]), steps[1..])
  }

  /** In every interleaving the counter is the number of open connections and
      the underflow repair is never taken. */
  lemma {:induction false} CounterIsExact(s: Conns, steps: seq<ConnStep>)
    requires s.value == |s.held| < U64 && s.repairing == multiset{} && ConnRun(s, steps)
    ensures var e := ConnExec(s, steps); e.value == |e.held| && e.repairing == multiset{}
    decreases |steps|
  {
    if steps != [] {
      var s' := ConnApply(s, steps[0]);
      match steps[0] {
        case Acquire(id) => assert |s.held + {id}| == |s.held| + 1;
        case Release(id) => assert |s.held - {id}| == |s.held| - 1;
        case Repair(id) =>
      }
      CounterIsExact(s', steps[1..]);
    }
  }

  // ---------------------------------------------------------------------------
  // A release without an acquire
  // ---------------------------------------------------------------------------

  /** The counter is one below the number of open connections, wrapping at zero. */
  predicate OneShort(s: Conns) {
    s.value == if s.held == {} then U64 - 1 else |s.held| - 1
  }

  predicate RepairFree(steps: seq<ConnStep>) {
    forall k :: 0 <= k < |steps| ==> !steps[k].Repair?
  }

  /** Some release of the run closes the last open connection. */
  predicate Empties(s: Conns, steps: seq<ConnStep>)
    decreases |steps|
  {
    steps != [] &&
    ((steps[0].Release? && s.held - {steps[0].id} == {}) || Empties(ConnApply(s, steps[0]), steps[1..]))
  }

  lemma StepStaysShort(s: Conns, step: ConnStep)
    requires OneShort(s) && |s.held| < U64 && ConnEnabled(s, step) && !step.Repair?
    ensures var s' := ConnApply(s, step);
      && OneShort(s') && |s'.held| < U64
      && (s'.repairing != multiset{} <==> s.repairing != multiset{} || (step.Release? && s'.held == {}))
  {
    match step {
      case Acquire(id) => assert |s.held + {id}| == |s.held| + 1;
      case Release(id) =>
        assert |s.held - {id}| == |s.held| - 1;
        assert s.value == 0 <==> s.held == {id};
        assert id in s.repairing + multiset{id};
    }
  }

  lemma {:induction false} RunStaysShort(s: Conns, steps: seq<ConnStep>)
    requires OneShort(s) && |s.held| < U64 && ConnRun(s, steps) && RepairFree(steps)
    ensures var e := ConnExec(s, steps);
      OneShort(e) && |e.held| < U64 && (e.repairing != multiset{} <==> s.repairing != multiset{} || Empties(s, steps))
    decreases |steps|
  {
    if steps != [] {
      StepStaysShort(s, steps[0]);
      RunStaysShort(ConnApply(s, steps[0]), steps[1..]);
    }
  }

  /**
   After one stray release the counter stays wrong through every run until a
   repair stores zero; a repair is due exactly once the open connections have
   been down to none; and it makes the counter right if and only if none is open
   when it strikes, and otherwise loses all that were opened meanwhile.
   */
  lemma RepairLosesAnAcquire(s: Conns, stray: nat, steps: seq<ConnStep>)
    requires s.value == |s.held| < U64 && s.repairing == multiset{} && stray !in s.held
    requires ConnRun(ConnApply(s, Release(stray)), steps) && RepairFree(steps)
    ensures var s' := ConnApply(s, Release(stray)); var e := ConnExec(s', steps);
      && e.value != |e.held|
      && (e.repairing != multiset{} <==> s.held == {} || Empties(s', steps))
      && (forall id <- e.repairing :: ConnApply(e, Repair(id)).value == |e.held| <==> e.held == {})
  {
    var s' := ConnApply(s, Release(stray));
    assert s'.held == s.held;
    if s.held == {} {
      assert stray in s'.repairing;
    } else {
      assert |s.held| > 0;
    }
    RunStaysShort(s', steps);
    var e := ConnExec(s', steps);
    assert e.held != {} ==> |e.held| > 0;
  }
}
