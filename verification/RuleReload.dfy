/**
 Loading the rule store from database rows (waf-engine/src/checker.rs) and the
 four list checks that read it.
 */
module RuleReload {
  import opened Basics
  import opened LiveSwap
  import opened RuleSets

  type Row<X> = (Key, X)

  /** The payloads of one host's rows, in row order. */
  function RowsOf<X>(rows: seq<Row<X>>, host: Key): seq<X> {
    if rows == [] then []
    else
      var rest := RowsOf(rows[..|rows| - 1], host);
      if rows[|rows| - 1].0 == host then rest + [rows[|rows| - 1].1] else rest
  }

  /** `m` is the rows grouped by host: a key for every host with a row. */
  ghost predicate IsGrouping<X>(m: Buckets<X>, rows: seq<Row<X>>) {
    forall h: Key :: (h in m <==> RowsOf(rows, h) != []) && (h in m ==> m[h] == RowsOf(rows, h))
  }

  /** The grouping loop of `populate_ip_rules` and `populate_url_rules`. */
  method GroupRows<X>(rows: seq<Row<X>>) returns (m: Buckets<X>)
    ensures IsGrouping(m, rows)
  {
    m := map[];
    for i := 0 to |rows|
      invariant IsGrouping(m, rows[..i])
    {
      assert rows[..i + 1][..i] == rows[..i];
      var (host, x) := rows[i];
      var bucket := if host in m then m[host] else [];
      m := m[host := bucket + [x]];
    }
    assert rows[..|rows|] == rows;
  }

  /** What a set loaded from `rows` answers from. */
  ghost predicate LoadedUrls(m: Buckets<UrlRule>, rows: seq<Row<UrlRule>>) {
    forall h: Key :: Bucket(m, h) == RowsOf(rows, h)
  }

  ghost predicate LoadedIps(m: Buckets<IpNet>, parse: Parser, rows: seq<Row<string>>) {
    forall h: Key :: Bucket(m, h) == ParseAll(parse, RowsOf(rows, h))
  }

  method PopulateIps(target: RuleSet<IpNet>, parse: Parser, rows: seq<Row<string>>)
    requires target.entries == map[]
    modifies target
    ensures LoadedIps(target.entries, parse, rows)
  {
    var grouped := GroupRows(rows);
    var todo := grouped.Keys;
    while todo != {}
      invariant todo <= grouped.Keys
      invariant forall h: Key ::
        Bucket(target.entries, h) == if h in grouped && h !in todo then ParseAll(parse, grouped[h]) else []
      decreases todo
    {
      var h :| h in todo;
      LoadIps(target, parse, h, grouped[h]);
      todo := todo - {h};
    }
  }

  method PopulateUrls(target: RuleSet<UrlRule>, rows: seq<Row<UrlRule>>)
    requires target.entries == map[]
    modifies target
    ensures LoadedUrls(target.entries, rows)
  {
    var grouped := GroupRows(rows);
    var todo := grouped.Keys;
    while todo != {}
      invariant todo <= grouped.Keys
      invariant forall h: Key :: Bucket(target.entries, h) == if h in grouped && h !in todo then grouped[h] else []
      decreases todo
    {
      var h :| h in todo;
      target.Load(h, grouped[h]);
      todo := todo - {h};
    }
  }

  // ---------------------------------------------------------------------------
  // What a loaded set answers
  // ---------------------------------------------------------------------------

  /** Some row of `host` parses to a network that contains `ip`. */
  ghost predicate RowContains(parse: Parser, rows: seq<Row<string>>, host: Key, ip: IpAddr) {
    exists i :: 0 <= i < |rows| && RowHits(parse, rows[i], host, ip)
  }

  predicate RowHits(parse: Parser, row: Row<string>, host: Key, ip: IpAddr) {
    row.0 == host && parse(row.1).Some? && Contains(parse(row.1).value, ip)
  }

  lemma RowContainsAppend(parse: Parser, rows: seq<Row<string>>, row: Row<string>, host: Key, ip: IpAddr)
    ensures RowContains(parse, rows + [row], host, ip)
       <==> RowContains(parse, rows, host, ip) || RowHits(parse, row, host, ip)
  {
    var all := rows + [row];
    assert all[|rows|] == row;
    assert forall i :: 0 <= i < |rows| ==> all[i] == rows[i];
  }

  lemma ParseAppend(parse: Parser, cidrs: seq<string>, cidr: string)
    ensures ParseAll(parse, cidrs + [cidr])
         == if parse(cidr).Some? then ParseAll(parse, cidrs) + [parse(cidr).value] else ParseAll(parse, cidrs)
  {
    assert (cidrs + [cidr])[..|cidrs|] == cidrs;
  }

  lemma AnyContainsAppend(nets: seq<IpNet>, net: IpNet, ip: IpAddr)
    ensures AnyContains(nets + [net], ip) <==> AnyContains(nets, ip) || Contains(net, ip)
  {
    if AnyContains(nets, ip) {
      var i :| 0 <= i < |nets| && Contains(nets[i], ip);
      assert (nets + [net])[i] == nets[i];
    }
    assert (nets + [net])[|nets|] == net;
  }

  lemma {:induction false} RowsContain(parse: Parser, rows: seq<Row<string>>, host: Key, ip: IpAddr)
    ensures AnyContains(ParseAll(parse, RowsOf(rows, host)), ip) <==> RowContains(parse, rows, host, ip)
    decreases |rows|
  {
    if rows != [] {
      var init, last := rows[..|rows| - 1], rows[|rows| - 1];
      RowsContain(parse, init, host, ip);
      assert rows == init + [last];
      RowContainsAppend(parse, init, last, host, ip);
      RowsOfAppend(init, last, host);
      if last.0 == host {
        ParseAppend(parse, RowsOf(init, host), last.1);
        if parse(last.1).Some? {
          AnyContainsAppend(ParseAll(parse, RowsOf(init, host)), parse(last.1).value, ip);
        }
      }
    }
  }

  /** After a reload an address matches host `h` exactly when some row of `h`
      or of "*" parses and contains it. */
  lemma ReloadedIps(m: Buckets<IpNet>, parse: Parser, rows: seq<Row<string>>, host: Key, ip: IpAddr)
    requires LoadedIps(m, parse, rows)
    ensures IpMatches(m, host, ip) <==> RowContains(parse, rows, host, ip) || RowContains(parse, rows, GLOBAL, ip)
  {
    RowsContain(parse, rows, host, ip);
    RowsContain(parse, rows, GLOBAL, ip);
  }

  /** Row `i` is the first of `host` whose rule matches `path`. */
  ghost predicate FirstRow(rows: seq<Row<UrlRule>>, host: Key, path: string, i: nat) {
    && i < |rows| && rows[i].0 == host && UrlMatches(rows[i].1, path)
    && forall j :: 0 <= j < i && rows[j].0 == host ==> !UrlMatches(rows[j].1, path)
  }

  ghost predicate NoRow(rows: seq<Row<UrlRule>>, host: Key, path: string) {
    forall j :: 0 <= j < |rows| && rows[j].0 == host ==> !UrlMatches(rows[j].1, path)
  }

  lemma {:induction false} FirstMatchAppend(rules: seq<UrlRule>, r: UrlRule, path: string)
    ensures FirstMatch(rules + [r], path) ==
      if FirstMatch(rules, path).Some? then FirstMatch(rules, path)
      else if UrlMatches(r, path) then Some(r.id) else None
    decreases |rules|
  {
    if rules == [] {
      assert rules + [r] == [r];
    } else {
      FirstMatchAppend(rules[1..], r, path);
      assert (rules + [r])[1..] == rules[1..] + [r];
    }
  }

  lemma {:induction false} RowsFirst(rows: seq<Row<UrlRule>>, host: Key, path: string)
    ensures var f := FirstMatch(RowsOf(rows, host), path);
      if f.Some? then exists i: nat :: FirstRow(rows, host, path, i) && rows[i].1.id == f.value
      else NoRow(rows, host, path)
    decreases |rows|
  {
    if rows != [] {
      var n := |rows| - 1;
      var init, last := rows[..n], rows[n];
      RowsFirst(init, host, path);
      assert rows == init + [last];
      var f := FirstMatch(RowsOf(init, host), path);
      if last.0 == host { FirstMatchAppend(RowsOf(init, host), last.1, path); }
      if f.Some? {
        var i: nat :| FirstRow(init, host, path, i) && init[i].1.id == f.value;
        assert FirstRow(rows, host, path, i);
      } else if last.0 == host && UrlMatches(last.1, path) {
        assert FirstRow(rows, host, path, n);
      }
    }
  }

  /** After a reload a URL match is the first matching row of the host in row
      order, else the first of "*"; no match means no row of either matches. */
  lemma ReloadedUrls(m: Buckets<UrlRule>, rows: seq<Row<UrlRule>>, host: Key, path: string)
    requires LoadedUrls(m, rows)
    ensures var r := UrlMatch(m, host, path);
      if NoRow(rows, host, path)
      then (if NoRow(rows, GLOBAL, path) then r.None?
            else exists i: nat :: FirstRow(rows, GLOBAL, path, i) && r == Some(rows[i].1.id))
      else exists i: nat :: FirstRow(rows, host, path, i) && r == Some(rows[i].1.id)
  {
    RowsFirst(rows, host, path);
    RowsFirst(rows, GLOBAL, path);
  }

  lemma RowsOfAppend<X>(rows: seq<Row<X>>, row: Row<X>, host: Key)
    ensures RowsOf(rows + [row], host) == if row.0 == host then RowsOf(rows, host) + [row.1] else RowsOf(rows, host)
  {
    assert (rows + [row])[..|rows|] == rows;
  }

  /** A later insert answers as if the set had been rebuilt from the rows plus
      the inserted one. */
  lemma InsertIsRebuild(m: Buckets<IpNet>, parse: Parser, rows: seq<Row<string>>, host: Key, cidr: string)
    requires LoadedIps(m, parse, rows)
    ensures LoadedIps(WithIp(m, parse, host, cidr), parse, rows + [(host, cidr)])
  {
    forall h: Key ensures Bucket(WithIp(m, parse, host, cidr), h) == ParseAll(parse, RowsOf(rows + [(host, cidr)], h)) {
      assert Bucket(m, h) == ParseAll(parse, RowsOf(rows, h));
      RowsOfAppend(rows, (host, cidr), h);
      assert (RowsOf(rows, h) + [cidr])[..|RowsOf(rows, h)|] == RowsOf(rows, h);
    }
  }

  /** The database lists the newest row first; the inserted one stands last in
      memory.  No lookup can tell the difference. */
  lemma InsertAnswersLikeReload(m: Buckets<IpNet>, m': Buckets<IpNet>, parse: Parser, rows: seq<Row<string>>,
                                host: Key, cidr: string, h: Key, ip: IpAddr)
    requires LoadedIps(m, parse, rows) && LoadedIps(m', parse, [(host, cidr)] + rows)
    ensures IpMatches(WithIp(m, parse, host, cidr), h, ip) <==> IpMatches(m', h, ip)
  {
    var row := (host, cidr);
    InsertIsRebuild(m, parse, rows, host, cidr);
    ReloadedIps(WithIp(m, parse, host, cidr), parse, rows + [row], h, ip);
    ReloadedIps(m', parse, [row] + rows, h, ip);
    OrderDoesNotMatter(parse, rows + [row], [row] + rows, h, ip);
    OrderDoesNotMatter(parse, rows + [row], [row] + rows, GLOBAL, ip);
  }

  lemma OrderDoesNotMatter(parse: Parser, rows: seq<Row<string>>, rows': seq<Row<string>>, host: Key, ip: IpAddr)
    requires forall r: Row<string> :: r in rows <==> r in rows'
    ensures RowContains(parse, rows, host, ip) <==> RowContains(parse, rows', host, ip)
  {
    assert forall i :: 0 <= i < |rows| ==> rows[i] in rows';
    assert forall i :: 0 <= i < |rows'| ==> rows'[i] in rows;
  }

  // ---------------------------------------------------------------------------
  // The store
  // ---------------------------------------------------------------------------

  /** What the database holds; each list may fail to load. */
  datatype Tables = Tables(
    allowIps: Option<seq<Row<string>>>,
    blockIps: Option<seq<Row<string>>>,
    allowUrls: Option<seq<Row<UrlRule>>>,
    blockUrls: Option<seq<Row<UrlRule>>>)
  {
    predicate AllLoaded() {
      allowIps.Some? && blockIps.Some? && allowUrls.Some? && blockUrls.Some?
    }
  }

  /** The lists of one host; each query may fail. */
  datatype HostRows = HostRows(
    allowIps: Option<seq<string>>,
    blockIps: Option<seq<string>>,
    allowUrls: Option<seq<UrlRule>>,
    blockUrls: Option<seq<UrlRule>>)
  {
    predicate AllLoaded() {
      allowIps.Some? && blockIps.Some? && allowUrls.Some? && blockUrls.Some?
    }

    ghost predicate RowsIn(t: Tables, host: Key)
      requires AllLoaded() && t.AllLoaded()
    {
      && allowIps.value == RowsOf(t.allowIps.value, host) && blockIps.value == RowsOf(t.blockIps.value, host)
      && allowUrls.value == RowsOf(t.allowUrls.value, host) && blockUrls.value == RowsOf(t.blockUrls.value, host)
    }
  }

  /** No other host's rows differ. */
  ghost predicate ChangedOnly(before: Tables, after: Tables, host: Key)
    requires before.AllLoaded() && after.AllLoaded()
  {
    forall h: Key :: h != host ==>
      && RowsOf(after.allowIps.value, h) == RowsOf(before.allowIps.value, h)
      && RowsOf(after.blockIps.value, h) == RowsOf(before.blockIps.value, h)
      && RowsOf(after.allowUrls.value, h) == RowsOf(before.allowUrls.value, h)
      && RowsOf(after.blockUrls.value, h) == RowsOf(before.blockUrls.value, h)
  }

  class RuleStore {
    const parse: Parser
    const allowIps: RuleSet<IpNet>
    const blockIps: RuleSet<IpNet>
    const allowUrls: RuleSet<UrlRule>
    const blockUrls: RuleSet<UrlRule>

    ghost predicate Valid() {
      allowIps != blockIps && allowUrls != blockUrls
    }

    /** The live sets answer exactly from the rows in `t`. */
    ghost predicate Reflects(t: Tables)
      requires t.AllLoaded()
      reads allowIps, blockIps, allowUrls, blockUrls
    {
      && LoadedIps(allowIps.entries, parse, t.allowIps.value) && LoadedIps(blockIps.entries, parse, t.blockIps.value)
      && LoadedUrls(allowUrls.entries, t.allowUrls.value) && LoadedUrls(blockUrls.entries, t.blockUrls.value)
    }

    constructor (parse: Parser)
      ensures Valid() && this.parse == parse
      ensures fresh(allowIps) && fresh(blockIps) && fresh(allowUrls) && fresh(blockUrls)
      ensures allowIps.entries == blockIps.entries == map[] && allowUrls.entries == blockUrls.entries == map[]
    {
      this.parse := parse;
      allowIps := new RuleSet<IpNet>();
      blockIps := new RuleSet<IpNet>();
      allowUrls := new RuleSet<UrlRule>();
      blockUrls := new RuleSet<UrlRule>();
    }

    /** All lists are read before anything live changes, so a failed load
        leaves the store as it was.  `a` to `d` are the runs of the four swaps. */
    method ReloadAll(t: Tables)
      returns (ok: bool, ghost a: seq<Step>, ghost b: seq<Step>, ghost c: seq<Step>, ghost d: seq<Step>)
      requires Valid()
      modifies allowIps, blockIps, allowUrls, blockUrls
      ensures ok == t.AllLoaded()
      ensures ok ==> Reflects(t)
      ensures ok ==> SwapRun(old(allowIps.entries), allowIps.entries, a)
      ensures ok ==> SwapRun(old(blockIps.entries), blockIps.entries, b)
      ensures ok ==> SwapRun(old(allowUrls.entries), allowUrls.entries, c)
      ensures ok ==> SwapRun(old(blockUrls.entries), blockUrls.entries, d)
      ensures !ok ==> allowIps.entries == old(allowIps.entries) && blockIps.entries == old(blockIps.entries)
      ensures !ok ==> allowUrls.entries == old(allowUrls.entries) && blockUrls.entries == old(blockUrls.entries)
    {
      if t.allowIps.None? || t.blockIps.None? || t.allowUrls.None? || t.blockUrls.None? {
        return false, [], [], [], [];
      }
      var newAllowIps := new RuleSet<IpNet>();
      PopulateIps(newAllowIps, parse, t.allowIps.value);
      var newBlockIps := new RuleSet<IpNet>();
      PopulateIps(newBlockIps, parse, t.blockIps.value);
      var newAllowUrls := new RuleSet<UrlRule>();
      PopulateUrls(newAllowUrls, t.allowUrls.value);
      var newBlockUrls := new RuleSet<UrlRule>();
      PopulateUrls(newBlockUrls, t.blockUrls.value);

      a := allowIps.SwapFrom(newAllowIps);
      b := blockIps.SwapFrom(newBlockIps);
      c := allowUrls.SwapFrom(newAllowUrls);
      d := blockUrls.SwapFrom(newBlockUrls);
      ok := true;
    }

    /** The rows of one host only; `before` and `after` are what the database held
        when the store last agreed with it and what it holds now. */
    method ReloadHost(host: Key, r: HostRows, ghost before: Tables, ghost after: Tables) returns (ok: bool)
      requires Valid() && before.AllLoaded() && after.AllLoaded()
      requires Reflects(before) && ChangedOnly(before, after, host)
      requires r.AllLoaded() ==> r.RowsIn(after, host)
      modifies allowIps, blockIps, allowUrls, blockUrls
      ensures ok == r.AllLoaded()
      ensures if ok then Reflects(after) else Reflects(before)
    {
      if r.allowIps.None? || r.blockIps.None? || r.allowUrls.None? || r.blockUrls.None? {
        return false;
      }
      ghost var a, b, c, d := allowIps.entries, blockIps.entries, allowUrls.entries, blockUrls.entries;
      ReloadHostIps(allowIps, parse, host, r.allowIps.value);
      ReloadHostIps(blockIps, parse, host, r.blockIps.value);
      ReloadHostUrls(allowUrls, host, r.allowUrls.value);
      ReloadHostUrls(blockUrls, host, r.blockUrls.value);
      HostReloadIsReload(a, allowIps.entries, parse, before.allowIps.value, after.allowIps.value, host);
      HostReloadIsReload(b, blockIps.entries, parse, before.blockIps.value, after.blockIps.value, host);
      HostUrlReloadIsReload(c, allowUrls.entries, before.allowUrls.value, after.allowUrls.value, host);
      HostUrlReloadIsReload(d, blockUrls.entries, before.blockUrls.value, after.blockUrls.value, host);
      return true;
    }
  }

  /** `reload_host` on one IP set: an empty list clears the key. */
  method ReloadHostIps(rules: RuleSet<IpNet>, parse: Parser, host: Key, cidrs: seq<string>)
    modifies rules
    ensures Bucket(rules.entries, host) == ParseAll(parse, cidrs)
    ensures forall h: Key :: h != host ==> Bucket(rules.entries, h) == Bucket(old(rules.entries), h)
  {
    if cidrs == [] {
      rules.ClearHost(host);
    } else {
      LoadIps(rules, parse, host, cidrs);
    }
  }

  /** `reload_host` on one URL set. */
  method ReloadHostUrls(rules: RuleSet<UrlRule>, host: Key, rs: seq<UrlRule>)
    modifies rules
    ensures Bucket(rules.entries, host) == rs
    ensures forall h: Key :: h != host ==> Bucket(rules.entries, h) == Bucket(old(rules.entries), h)
  {
    if rs == [] {
      rules.ClearHost(host);
    } else {
      rules.Load(host, rs);
    }
  }

  lemma HostUrlReloadIsReload(m: Buckets<UrlRule>, m': Buckets<UrlRule>,
                              rows: seq<Row<UrlRule>>, rows': seq<Row<UrlRule>>, host: Key)
    requires LoadedUrls(m, rows)
    requires forall h: Key :: h != host ==> RowsOf(rows', h) == RowsOf(rows, h)
    requires Bucket(m', host) == RowsOf(rows', host)
    requires forall h: Key :: h != host ==> Bucket(m', h) == Bucket(m, h)
    ensures LoadedUrls(m', rows')
  {
  }

  /** Reloading one host is as good as reloading everything when only that
      host's rows changed. */
  lemma HostReloadIsReload(m: Buckets<IpNet>, m': Buckets<IpNet>, parse: Parser,
                           rows: seq<Row<string>>, rows': seq<Row<string>>, host: Key)
    requires LoadedIps(m, parse, rows)
    requires forall h: Key :: h != host ==> RowsOf(rows', h) == RowsOf(rows, h)
    requires Bucket(m', host) == ParseAll(parse, RowsOf(rows', host))
    requires forall h: Key :: h != host ==> Bucket(m', h) == Bucket(m, h)
    ensures LoadedIps(m', parse, rows')
  {
  }
}
