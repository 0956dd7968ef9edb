/**
 IP and URL rule sets (waf-engine/src/rules.rs): buckets of rules per host
 code, with "*" for rules of every host.
 */
module RuleSets {
  import opened Basics
  import opened LiveSwap

  // ---------------------------------------------------------------------------
  // Networks and URL rules
  // ---------------------------------------------------------------------------

  datatype IpNet = IpNet(base: IpAddr, prefix: nat)

  /** Text to network: CIDR first, then a plain address; `None` when neither parses. */
  type Parser = string -> Option<IpNet>

  function Pow2(n: nat): (p: nat)
    ensures p > 0
  {
    if n == 0 then 1 else 2 * Pow2(n - 1)
  }

  predicate Contains(net: IpNet, ip: IpAddr) {
    match (net.base, ip)
    case (V4(b), V4(a)) => net.prefix <= 32 && a / Pow2(32 - net.prefix) == b / Pow2(32 - net.prefix)
    case (V6(b), V6(a)) => net.prefix <= 128 && a / Pow2(128 - net.prefix) == b / Pow2(128 - net.prefix)
    case _ => false
  }

  predicate AnyContains(nets: seq<IpNet>, ip: IpAddr) {
    exists i :: 0 <= i < |nets| && Contains(nets[i], ip)
  }

  /** The rules that parse, in order; the rest are dropped with a warning. */
  function ParseAll(parse: Parser, cidrs: seq<string>): seq<IpNet> {
    if cidrs == [] then []
    else
      var rest := ParseAll(parse, cidrs[..|cidrs| - 1]);
      var p := parse(cidrs[|cidrs| - 1]);
      if p.Some? then rest + [p.value] else rest
  }

  datatype MatchType = Exact | Prefix | Substring | Suffix

  datatype UrlRule = UrlRule(id: string, pattern: string, matchType: MatchType)

  predicate UrlMatches(r: UrlRule, path: string) {
    match r.matchType
    case Exact => r.pattern == path
    case Prefix => r.pattern <= path
    case Substring => exists i :: 0 <= i <= |path| && r.pattern <= path[i..]
    case Suffix => |r.pattern| <= |path| && path[|path| - |r.pattern|..] == r.pattern
  }

  /** Id of the first rule that matches. */
  function FirstMatch(rules: seq<UrlRule>, path: string): Option<string> {
    if rules == [] then None
    else if UrlMatches(rules[0], path) then Some(rules[0].id)
    else FirstMatch(rules[1..], path)
  }

  /** The path is the pattern with `before` in front of it and `after` behind it. */
  predicate Around(path: string, before: string, pattern: string, after: string) {
    path == before + pattern + after
  }

  ghost predicate Begins(path: string, pattern: string) {
    exists after: string :: Around(path, "", pattern, after)
  }

  ghost predicate Occurs(path: string, pattern: string) {
    exists before: string, after: string :: Around(path, before, pattern, after)
  }

  ghost predicate Ends(path: string, pattern: string) {
    exists before: string :: Around(path, before, pattern, "")
  }

  lemma PrefixMeans(p: string, path: string)
    ensures p <= path <==> Begins(path, p)
  {
    if p <= path {
      assert path == p + path[|p|..];
      assert Around(path, "", p, path[|p|..]);
    }
  }

  lemma SubstringMeans(p: string, path: string)
    ensures (exists i :: 0 <= i <= |path| && p <= path[i..]) <==> Occurs(path, p)
  {
    if i :| 0 <= i <= |path| && p <= path[i..] {
      assert path == path[..i] + path[i..] && path[i..] == p + path[i..][|p|..];
      assert Around(path, path[..i], p, path[i..][|p|..]);
    }
    if s: string, t: string :| Around(path, s, p, t) {
      assert path[|s|..] == p + t;
    }
  }

  lemma SuffixMeans(p: string, path: string)
    ensures |p| <= |path| && path[|path| - |p|..] == p <==> Ends(path, p)
  {
    if |p| <= |path| && path[|path| - |p|..] == p {
      assert path == path[..|path| - |p|] + p;
      assert Around(path, path[..|path| - |p|], p, "");
    }
    if s: string :| Around(path, s, p, "") {
      assert path[|path| - |p|..] == p;
    }
  }

  /** What each kind of rule matches: the path itself, what it begins with, what occurs
      in it, what it ends with. */
  lemma UrlMatchesMeans(r: UrlRule, path: string)
    ensures UrlMatches(r, path) <==>
      match r.matchType
      case Exact => path == r.pattern
      case Prefix => Begins(path, r.pattern)
      case Substring => Occurs(path, r.pattern)
      case Suffix => Ends(path, r.pattern)
  {
    match r.matchType
    case Exact =>
    case Prefix => PrefixMeans(r.pattern, path);
    case Substring => SubstringMeans(r.pattern, path);
    case Suffix => SuffixMeans(r.pattern, path);
  }

  function Bits(ip: IpAddr): nat {
    if ip.V4? then 32 else 128
  }

  /** An address of its family. */
  predicate InRange(ip: IpAddr) {
    ip.bits < if ip.V4? then 0x1_0000_0000 else 0x1_0000_0000_0000_0000_0000_0000_0000_0000
  }

  /** Both lie in the same aligned block of `size` numbers. */
  ghost predicate SameBlock(a: nat, b: nat, size: nat) {
    exists q: nat :: InBlock(a, q, size) && InBlock(b, q, size)
  }

  predicate InBlock(a: nat, q: nat, size: nat) {
    q * size <= a < (q + 1) * size
  }

  lemma MulMonotone(y: nat, x: nat, p: nat)
    requires y <= x
    ensures y * p <= x * p
  {
    assert x * p == y * p + (x - y) * p;
  }

  lemma MulLess(x: nat, y: nat, p: nat)
    requires x * p < y * p
    ensures x < y
  {
    if y <= x { MulMonotone(y, x, p); }
  }

  lemma DivIsBlock(a: nat, p: nat, q: nat)
    requires p > 0
    ensures a / p == q <==> InBlock(a, q, p)
  {
    var d := a / p;
    assert a == d * p + a % p && (d + 1) * p == d * p + p;
    if InBlock(a, q, p) {
      MulLess(d, q + 1, p);
      MulLess(q, d + 1, p);
    }
  }

  lemma SameQuotient(a: nat, b: nat, p: nat)
    requires p > 0
    ensures a / p == b / p <==> SameBlock(a, b, p)
  {
    DivIsBlock(a, p, a / p);
    DivIsBlock(b, p, a / p);
    if q: nat :| InBlock(a, q, p) && InBlock(b, q, p) {
      DivIsBlock(a, p, q);
      DivIsBlock(b, p, q);
    }
  }

  /** A network holds the addresses of its family in the aligned block of 2^(32 - prefix)
      or 2^(128 - prefix) addresses around its base. */
  lemma ContainsMeans(net: IpNet, ip: IpAddr)
    ensures Contains(net, ip) <==>
      && net.base.V4? == ip.V4? && net.prefix <= Bits(ip)
      && SameBlock(net.base.bits, ip.bits, Pow2(Bits(ip) - net.prefix))
  {
    if net.base.V4? == ip.V4? && net.prefix <= Bits(ip) {
      SameQuotient(net.base.bits, ip.bits, Pow2(Bits(ip) - net.prefix));
    }
  }

  /** That is the base alone for a full prefix, and the whole family for prefix 0. */
  lemma ContainsAtEnds(net: IpNet, ip: IpAddr)
    requires net.base.V4? == ip.V4?
    ensures net.prefix == Bits(ip) ==> (Contains(net, ip) <==> ip == net.base)
    ensures net.prefix == 0 && InRange(net.base) && InRange(ip) ==> Contains(net, ip)
  {
    PowersOfTwo();
    var p := Pow2(Bits(ip));
    DivIsBlock(net.base.bits, p, 0);
    DivIsBlock(ip.bits, p, 0);
  }

  lemma FourMore(n: nat)
    ensures Pow2(n + 4) == 16 * Pow2(n)
  {
    assert Pow2(n + 1) == 2 * Pow2(n);
    assert Pow2(n + 2) == 2 * Pow2(n + 1);
    assert Pow2(n + 3) == 2 * Pow2(n + 2);
  }

  lemma SixteenMore(n: nat)
    ensures Pow2(n + 16) == 0x1_0000 * Pow2(n)
  {
    FourMore(n);
    FourMore(n + 4);
    FourMore(n + 8);
    FourMore(n + 12);
  }

  lemma SixtyFourMore(n: nat)
    ensures Pow2(n + 64) == 0x1_0000_0000_0000_0000 * Pow2(n)
  {
    SixteenMore(n);
    SixteenMore(n + 16);
    SixteenMore(n + 32);
    SixteenMore(n + 48);
  }

  lemma PowersOfTwo()
    ensures Pow2(0) == 1 && Pow2(32) == 0x1_0000_0000
    ensures Pow2(128) == 0x1_0000_0000_0000_0000_0000_0000_0000_0000
  {
    SixteenMore(0);
    SixteenMore(16);
    SixtyFourMore(0);
    SixtyFourMore(64);
  }

  // ---------------------------------------------------------------------------
  // Queries over the buckets
  // ---------------------------------------------------------------------------

  type Buckets<X> = map<Key, seq<X>>

  function Bucket<X>(m: Buckets<X>, host: Key): seq<X> {
    if host in m then m[host] else []
  }

  /** `IpRuleSet::matches` on a map that does not change meanwhile. */
  predicate IpMatches(m: Buckets<IpNet>, host: Key, ip: IpAddr) {
    AnyContains(Bucket(m, host), ip) || AnyContains(Bucket(m, GLOBAL), ip)
  }

  /** `UrlRuleSet::matches` likewise. */
  function UrlMatch(m: Buckets<UrlRule>, host: Key, path: string): Option<string> {
    var own := FirstMatch(Bucket(m, host), path);
    if own.Some? then own else FirstMatch(Bucket(m, GLOBAL), path)
  }

  // ---------------------------------------------------------------------------
  // The set objects
  // ---------------------------------------------------------------------------

  class RuleSet<X> {
    var entries: Buckets<X>

    constructor ()
      ensures entries == map[]
    {
      entries := map[];
    }

    method Load(host: Key, rules: seq<X>)
      modifies this
      ensures entries == old(entries)[host := rules]
    {
      entries := entries[host := rules];
    }

    method Push(host: Key, rule: X)
      modifies this
      ensures entries == old(entries)[host := Bucket(old(entries), host) + [rule]]
    {
      var bucket := if host in entries then entries[host] else [];
      entries := entries[host := bucket + [rule]];
    }

    method ClearHost(host: Key)
      modifies this
      ensures entries == old(entries) - {host}
    {
      entries := entries - {host};
    }

    /** Overwrite, then prune.  `steps` is the run of the swap machine that the
        two loops perform, so the reader guarantees hold during the call. */
    method SwapFrom(other: RuleSet<X>) returns (ghost steps: seq<Step>)
      requires other != this
      modifies this
      ensures entries == other.entries
      ensures SwapRun(old(entries), other.entries, steps)
    {
      ghost var s0 := Start(entries, other.entries);
      steps := [];
      var todo := other.entries.Keys;
      while todo != {}
        invariant todo <= other.entries.Keys
        invariant Valid(s0, steps) && Exec(s0, steps) == Swap(entries, other.entries, Copying(todo))
        decreases todo
      {
        var k :| k in todo;
        entries := entries[k := other.entries[k]];
        todo := todo - {k};
        ExtendRun(s0, steps, Copy(k));
        steps := steps + [Copy(k)];
      }
      var stale := set k | k in entries && k !in other.entries;
      assert stale == entries.Keys - other.entries.Keys;
      ExtendRun(s0, steps, Collect);
      steps := steps + [Collect];
      while stale != {}
        invariant Valid(s0, steps) && Exec(s0, steps) == Swap(entries, other.entries, Pruning(stale))
        decreases stale
      {
        var k :| k in stale;
        entries := entries - {k};
        stale := stale - {k};
        ExtendRun(s0, steps, Remove(k));
        steps := steps + [Remove(k)];
      }
      ExtendRun(s0, steps, Finish);
      steps := steps + [Finish];
      SwapInstallsSource(old(entries), other.entries, steps);
      assert steps[..|steps|] == steps;
    }
  }

  /** `IpRuleSet::load` */
  method LoadIps(rules: RuleSet<IpNet>, parse: Parser, host: Key, cidrs: seq<string>)
    modifies rules
    ensures rules.entries == old(rules.entries)[host := ParseAll(parse, cidrs)]
  {
    var nets: seq<IpNet> := [];
    for i := 0 to |cidrs|
      invariant nets == ParseAll(parse, cidrs[..i])
    {
      assert cidrs[..i + 1][..i] == cidrs[..i];
      var p := parse(cidrs[i]);
      if p.Some? {
        nets := nets + [p.value];
      }
    }
    assert cidrs[..|cidrs|] == cidrs;
    rules.Load(host, nets);
  }

  /** `IpRuleSet::insert`: text that does not parse changes nothing. */
  function WithIp(m: Buckets<IpNet>, parse: Parser, host: Key, cidr: string): Buckets<IpNet> {
    if parse(cidr).Some? then m[host := Bucket(m, host) + [parse(cidr).value]] else m
  }

  method InsertIp(rules: RuleSet<IpNet>, parse: Parser, host: Key, cidr: string)
    modifies rules
    ensures rules.entries == WithIp(old(rules.entries), parse, host, cidr)
  {
    var p := parse(cidr);
    if p.Some? {
      rules.Push(host, p.value);
    }
  }

  /** The reader guarantee in terms of addresses: an address that the host's
      bucket, or the "*" bucket, matches in both sets is matched throughout. */
  lemma IpReadersDuringSwap(before: Buckets<IpNet>, source: Buckets<IpNet>, host: Key, ip: IpAddr)
    ensures var matches := (nets: seq<IpNet>) => AnyContains(nets, ip);
      && ((exists k :: k in {host, GLOBAL} && AnyContains(Bucket(before, k), ip) && AnyContains(Bucket(source, k), ip))
          ==> AlwaysReads(before, source, host, matches))
      && (!IpMatches(before, host, ip) && !IpMatches(source, host, ip) ==> NeverReads(before, source, host, matches))
  {
    var matches := (nets: seq<IpNet>) => AnyContains(nets, ip);
    ReaderGuarantee(before, source, host, matches);
    NoFalseRead(before, source, host, matches);
  }
}
