/** Host header routing (gateway/src/router.rs). */
module HostRouter {
  import opened Basics
  import opened Text

  type Port = p: int | 0 <= p < 65536

  /** The part of a host configuration that routing looks at. */
  datatype HostConfig = HostConfig(host: string, port: Port, code: string)

  type Routes = map<string, HostConfig>

  // ---------------------------------------------------------------------------
  // Keys
  // ---------------------------------------------------------------------------

  const DIGITS := "0123456789"

  function Decimal(n: nat): string {
    if n < 10 then [DIGITS[n]] else Decimal(n / 10) + [DIGITS[n % 10]]
  }

  /** The format string "{host}:{port}". */
  function Key(host: string, port: Port): string {
    host + ":" + Decimal(port)
  }

  predicate DefaultPort(port: Port) {
    port == 80 || port == 443
  }

  /** `host_header.split(':').next()` */
  function BareHost(header: string): string {
    header[..IndexOf(header, ':')]
  }

  lemma {:induction false} DecimalHasNoColon(n: nat)
    ensures Decimal(n) != [] && ':' !in Decimal(n)
  {
    if n >= 10 {
      DecimalHasNoColon(n / 10);
    }
  }

  lemma DigitsDiffer(i: nat, j: nat)
    requires i < 10 && j < 10 && DIGITS[i] == DIGITS[j]
    ensures i == j
  {
  }

  lemma {:induction false} DecimalInjective(m: nat, n: nat)
    requires Decimal(m) == Decimal(n)
    ensures m == n
    decreases m
  {
    var a, b := Decimal(m), Decimal(n);
    assert a[|a| - 1] == DIGITS[m % 10] && b[|b| - 1] == DIGITS[n % 10];
    DigitsDiffer(m % 10, n % 10);
    DecimalHasNoColon(m / 10);
    DecimalHasNoColon(n / 10);
    if m >= 10 && n >= 10 {
      assert a[..|a| - 1] == Decimal(m / 10) && b[..|b| - 1] == Decimal(n / 10);
      DecimalInjective(m / 10, n / 10);
    }
  }

  /** What a text of digits says. */
  function Value(s: string): int {
    if s == [] then 0 else 10 * Value(s[..|s| - 1]) + (s[|s| - 1] as int - '0' as int)
  }

  /** `Decimal` is the usual way to write a number, without leading zeros. */
  lemma {:induction false} DecimalReads(n: nat)
    ensures Value(Decimal(n)) == n && (forall c <- Decimal(n) :: '0' <= c <= '9')
    ensures Decimal(n)[0] == '0' <==> n == 0
  {
    assert forall i :: 0 <= i < 10 ==> DIGITS[i] as int == '0' as int + i;
    if n < 10 {
      assert [DIGITS[n]][..0] == [];
    } else {
      DecimalReads(n / 10);
      DecimalHasNoColon(n / 10);
      var init, last := Decimal(n / 10), DIGITS[n % 10];
      assert (init + [last])[..|init|] == init;
    }
  }

  /** The host of a key can be read off, if it has no colon itself. */
  lemma KeyParts(host: string, port: Port)
    requires ':' !in host
    ensures BareHost(Key(host, port)) == host && ':' in Key(host, port)
  {
    var k := Key(host, port);
    assert k[|host|] == ':' && forall i :: 0 <= i < |host| ==> k[i] == host[i];
    assert IndexOf(k, ':') == |host|;
  }

  /** The last colon of a key stands behind the host, whatever the host is. */
  lemma LastColon(host: string, port: Port)
    ensures Key(host, port)[|host|] == ':'
    ensures forall i :: |host| < i < |Key(host, port)| ==> Key(host, port)[i] != ':'
  {
    DecimalHasNoColon(port);
    assert Key(host, port)[|host| + 1..] == Decimal(port);
  }

  /** Keys of different hosts or ports differ. */
  lemma KeyInjective(h1: string, p1: Port, h2: string, p2: Port)
    ensures Key(h1, p1) == Key(h2, p2) <==> h1 == h2 && p1 == p2
  {
    var k1, k2 := Key(h1, p1), Key(h2, p2);
    if k1 == k2 {
      LastColon(h1, p1);
      LastColon(h2, p2);
      assert h1 == k1[..|h1|] && h2 == k2[..|h2|];
      assert Decimal(p1) == k1[|h1| + 1..] && Decimal(p2) == k2[|h2| + 1..];
      DecimalInjective(p1, p2);
    }
  }

  // ---------------------------------------------------------------------------
  // The router
  // ---------------------------------------------------------------------------

  function Registered(routes: Routes, c: HostConfig): Routes {
    var r := routes[Key(c.host, c.port) := c];
    if DefaultPort(c.port) then r[c.host := c] else r
  }

  function Unregistered(routes: Routes, host: string, port: Port): Routes {
    var r := routes - {Key(host, port)};
    if DefaultPort(port) then r - {host} else r
  }

  function Resolved(routes: Routes, header: string): Option<HostConfig> {
    if header in routes then Some(routes[header]) else Get(routes, BareHost(header))
  }

  class HostRouter {
    var routes: Routes

    constructor ()
      ensures routes == After([])
    {
      routes := map[];
    }

    method Register(c: HostConfig, ghost past: seq<Op>)
      requires routes == After(past)
      modifies this
      ensures routes == After(past + [Added(c)])
    {
      var key := Key(c.host, c.port);
      routes := routes[key := c];
      if c.port == 80 || c.port == 443 {
        routes := routes[c.host := c];
      }
      assert (past + [Added(c)])[..|past|] == past;
    }

    method Unregister(host: string, port: Port, ghost past: seq<Op>)
      requires routes == After(past)
      modifies this
      ensures routes == After(past + [Removed(host, port)])
    {
      var key := Key(host, port);
      routes := routes - {key};
      if port == 80 || port == 443 {
        routes := routes - {host};
      }
      assert (past + [Removed(host, port)])[..|past|] == past;
    }

    method Resolve(header: string) returns (r: Option<HostConfig>)
      ensures r == Resolved(routes, header)
    {
      if header in routes { return Some(routes[header]); }
      var bare := BareHost(header);
      if bare in routes { return Some(routes[bare]); }
      return None;
    }
  }

  // ---------------------------------------------------------------------------
  // Histories
  // ---------------------------------------------------------------------------

  datatype Op = Added(c: HostConfig) | Removed(host: string, port: Port)

  function After(ops: seq<Op>): Routes {
    if ops == [] then map[]
    else
      var r := After(ops[..|ops| - 1]);
      match ops[|ops| - 1]
      case Added(c) => Registered(r, c)
      case Removed(host, port) => Unregistered(r, host, port)
  }

  function OpHost(op: Op): string {
    if op.Added? then op.c.host else op.host
  }

  function OpPort(op: Op): Port {
    if op.Added? then op.c.port else op.port
  }

  function Effect(op: Op): Option<HostConfig> {
    if op.Added? then Some(op.c) else None
  }

  /** What the last operation on exactly this host and port left. */
  function Current(ops: seq<Op>, host: string, port: Port): Option<HostConfig> {
    if ops == [] then None
    else
      var op := ops[|ops| - 1];
      if OpHost(op) == host && OpPort(op) == port then Effect(op) else Current(ops[..|ops| - 1], host, port)
  }

  /** What the last operation on this host with a default port left. */
  function Default(ops: seq<Op>, host: string): Option<HostConfig> {
    if ops == [] then None
    else
      var op := ops[|ops| - 1];
      if OpHost(op) == host && (OpPort(op) == 80 || OpPort(op) == 443) then Effect(op)
      else Default(ops[..|ops| - 1], host)
  }

  /** Host names without a colon. */
  ghost predicate Plain(ops: seq<Op>) {
    forall op <- ops :: ':' !in OpHost(op)
  }

  lemma PlainLast(ops: seq<Op>)
    requires Plain(ops) && ops != []
    ensures Plain(ops[..|ops| - 1]) && ':' !in OpHost(ops[|ops| - 1])
  {
    assert ops[|ops| - 1] in ops;
  }

  lemma {:induction false} TableHoldsCurrent(ops: seq<Op>, host: string, port: Port)
    requires Plain(ops) && ':' !in host
    ensures Get(After(ops), Key(host, port)) == Current(ops, host, port)
    decreases |ops|
  {
    if ops != [] {
      PlainLast(ops);
      TableHoldsCurrent(ops[..|ops| - 1], host, port);
      var op := ops[|ops| - 1];
      KeyInjective(OpHost(op), OpPort(op), host, port);
      KeyParts(host, port);
    }
  }

  lemma {:induction false} TableHoldsDefault(ops: seq<Op>, host: string)
    requires Plain(ops) && ':' !in host
    ensures Get(After(ops), host) == Default(ops, host)
    decreases |ops|
  {
    if ops != [] {
      PlainLast(ops);
      TableHoldsDefault(ops[..|ops| - 1], host);
      var op := ops[|ops| - 1];
      KeyParts(OpHost(op), OpPort(op));
    }
  }

  /** A header that names a port the way keys do. */
  ghost predicate Names(header: string, host: string, port: Port) {
    header == Key(host, port)
  }

  lemma {:induction false} TableHoldsNothingElse(ops: seq<Op>, header: string)
    requires Plain(ops) && ':' in header && forall port: Port :: !Names(header, BareHost(header), port)
    ensures header !in After(ops)
    decreases |ops|
  {
    if ops != [] {
      PlainLast(ops);
      TableHoldsNothingElse(ops[..|ops| - 1], header);
      var op := ops[|ops| - 1];
      KeyParts(OpHost(op), OpPort(op));
      assert !Names(header, BareHost(header), OpPort(op));
    }
  }

  lemma BareHasNoColon(header: string)
    ensures ':' !in BareHost(header) && (':' !in header ==> BareHost(header) == header)
  {
  }

  /**
   Routing in terms of what was registered, for every history of registrations:
   a header that names a registered port goes there, and every other header goes
   to the last default-port registration of the host, whatever port it names.
   */
  lemma ResolvesByHistory(ops: seq<Op>, header: string)
    requires Plain(ops)
    ensures (forall port: Port :: Names(header, BareHost(header), port) ==> Current(ops, BareHost(header), port).None?)
      ==> Resolved(After(ops), header) == Default(ops, BareHost(header))
    ensures forall port: Port ::
      Names(header, BareHost(header), port) && Current(ops, BareHost(header), port).Some? ==>
        Resolved(After(ops), header) == Current(ops, BareHost(header), port)
  {
    var host := BareHost(header);
    BareHasNoColon(header);
    TableHoldsDefault(ops, host);
    forall port: Port | Names(header, host, port)
      ensures Get(After(ops), header) == Current(ops, host, port)
    {
      TableHoldsCurrent(ops, host, port);
    }
    if ':' in header && forall port: Port :: !Names(header, host, port) {
      TableHoldsNothingElse(ops, header);
    }
  }

  // ---------------------------------------------------------------------------
  // Any host names
  // ---------------------------------------------------------------------------

  /** The operation writes or removes the entry under `key`. */
  predicate Concerns(op: Op, key: string) {
    key == Key(OpHost(op), OpPort(op)) || ((OpPort(op) == 80 || OpPort(op) == 443) && key == OpHost(op))
  }

  /** What the last operation that concerns `key` left. */
  function Latest(ops: seq<Op>, key: string): Option<HostConfig> {
    if ops == [] then None
    else if Concerns(ops[|ops| - 1], key) then Effect(ops[|ops| - 1])
    else Latest(ops[..|ops| - 1], key)
  }

  lemma {:induction false} TableHoldsLatest(ops: seq<Op>, key: string)
    ensures Get(After(ops), key) == Latest(ops, key)
    decreases |ops|
  {
    if ops != [] {
      TableHoldsLatest(ops[..|ops| - 1], key);
    }
  }

  /** For all histories and host names: the last operation on the header's own
      text decides, and otherwise the last one on the text before its first colon. */
  lemma ResolvesByLatest(ops: seq<Op>, header: string)
    ensures Resolved(After(ops), header)
         == if Latest(ops, header).Some? then Latest(ops, header) else Latest(ops, BareHost(header))
  {
    TableHoldsLatest(ops, header);
    TableHoldsLatest(ops, BareHost(header));
  }

  /** Every entry stands under its own key or, with a default port, under its host. */
  ghost predicate KeyedByEntry(routes: Routes) {
    forall k <- routes ::
      k == Key(routes[k].host, routes[k].port) || (DefaultPort(routes[k].port) && k == routes[k].host)
  }

  lemma {:induction false} TableKeyedByEntry(ops: seq<Op>)
    ensures KeyedByEntry(After(ops))
    decreases |ops|
  {
    if ops != [] {
      TableKeyedByEntry(ops[..|ops| - 1]);
    }
  }

  /** A request reaches the configuration of the host it names, if any. */
  ghost predicate ReachesItsHost(routes: Routes, header: string) {
    Resolved(routes, header).Some? ==> Resolved(routes, header).value.host == BareHost(header)
  }

  lemma EntryReachesItsHost(routes: Routes, k: string)
    requires KeyedByEntry(routes) && k in routes
    ensures BareHost(k) == routes[k].host <==> ':' !in routes[k].host
  {
    var c := routes[k];
    BareHasNoColon(k);
    BareHasNoColon(c.host);
    if ':' !in c.host {
      KeyParts(c.host, c.port);
    }
  }

  /**
   No request ever reaches the configuration of another host than the one in
   front of the first colon of its header, if and only if no live entry has a
   colon in its host name.
   */
  lemma NeverAnotherHost(ops: seq<Op>)
    ensures (forall header: string :: ReachesItsHost(After(ops), header))
       <==> forall k <- After(ops) :: ':' !in After(ops)[k].host
  {
    var routes := After(ops);
    TableKeyedByEntry(ops);
    if forall k <- routes :: ':' !in routes[k].host {
      forall header: string ensures ReachesItsHost(routes, header) {
        BareHasNoColon(header);
        BareHasNoColon(BareHost(header));
        if header in routes {
          EntryReachesItsHost(routes, header);
        } else if BareHost(header) in routes {
          EntryReachesItsHost(routes, BareHost(header));
        }
      }
    } else {
      var k :| k in routes && ':' in routes[k].host;
      EntryReachesItsHost(routes, k);
      assert !ReachesItsHost(routes, k);
    }
  }

  /** One way that happens: the bare key of one host is the key of another, and
      replaces it. */
  lemma ColonsClash(c: HostConfig, other: string, port: Port)
    requires ':' !in other && c.host == Key(other, port) && DefaultPort(c.port)
    ensures Resolved(After([Added(HostConfig(other, port, "a")), Added(c)]), Key(other, port)) == Some(c)
    ensures c.host != BareHost(Key(other, port))
  {
    var ops := [Added(HostConfig(other, port, "a")), Added(c)];
    assert ops[..1] == [ops[0]];
    KeyParts(other, port);
  }

  /** Taking away one default port also takes away the bare name that the other
      default port still serves, after any history. */
  lemma OtherDefaultPortLost(ops: seq<Op>, c: HostConfig)
    requires c.port == 80
    ensures var routes := After(ops + [Added(c), Removed(c.host, 443)]);
      && c.host !in routes && Resolved(routes, Key(c.host, 80)) == Some(c)
      && (':' !in c.host ==> Resolved(routes, c.host).None?)
  {
    var h := ops + [Added(c), Removed(c.host, 443)];
    assert h[..|h| - 1] == ops + [Added(c)];
    BareHasNoColon(c.host);
    KeyInjective(c.host, 80, c.host, 443);
    assert |Key(c.host, 80)| > |c.host|;
    TableHoldsLatest(h, c.host);
    TableHoldsLatest(h, Key(c.host, 80));
  }
}
