/** `WindowsRouteManager` of ui/main.py over an IPv4 routing table: the two half-space
    routes, the host route of the server, and taking them out again. */
module Routes {
  import opened Bytes
  import Gateway

  const SPACE := 0x1_0000_0000
  const HALF := 0x8000_0000

  type Ip = a: int | 0 <= a < SPACE

  function Pow2(k: nat): (p: nat)
    ensures p > 0
  {
    if k == 0 then 1 else 2 * Pow2(k - 1)
  }

  type PrefixLength = n: int | 0 <= n <= 32

  /** A table row: destination, mask length, gateway, and the metric the system gave it. */
  datatype Route = Route(dest: Ip, len: PrefixLength, gateway: string, metric: nat)

  /** What the user typed as the server: an address, or a name `route` cannot use. */
  datatype Host = Address(a: Ip) | Name(s: string)

  /** The system keeps no row whose destination has bits outside its mask. */
  predicate Aligned(routes: set<Route>) {
    forall r :: r in routes ==> r.dest % Pow2(32 - r.len) == 0
  }

  const VPN_GATEWAY := "10.8.0.1"

  predicate Covers(r: Route, a: Ip) {
    a / Pow2(32 - r.len) == r.dest / Pow2(32 - r.len)
  }

  /** Longest-prefix match (section 5.2.4.3 of RFC 1812), ties broken by the metric. */
  predicate Wins(routes: set<Route>, a: Ip, r: Route) {
    r in routes && Covers(r, a) &&
    forall s :: s in routes && Covers(s, a) ==> s.len < r.len || (s.len == r.len && r.metric <= s.metric)
  }

  function Winners(routes: set<Route>, a: Ip): set<Route> {
    set r | r in routes && Wins(routes, a, r)
  }

  function NextHops(routes: set<Route>, a: Ip): set<string> {
    set r | r in Winners(routes, a) :: r.gateway
  }

  // --------------------------------------------------------------- the commands

  predicate IsHalf(r: Route) { r.len == 1 && (r.dest == 0 || r.dest == HALF) }

  /** `route delete host` names no mask, so it takes every route to that destination. */
  predicate ToHost(r: Route, host: Option<Host>) {
    host.Some? && host.value.Address? && r.dest == host.value.a
  }

  function Purge(routes: set<Route>, host: Option<Host>): set<Route> {
    set r | r in routes && !IsHalf(r) && !ToHost(r, host)
  }

  /** `route add`: refused when the environment fails it, when the destination is a
      name, or when the same route is there already. */
  function Add(routes: set<Route>, dest: Host, len: PrefixLength, gateway: string, metric: nat, fails: bool): (set<Route>, bool) {
    if fails || dest.Name? || exists r :: r in routes && r.dest == dest.a && r.len == len && r.gateway == gateway
    then (routes, false)
    else (routes + {Route(dest.a, len, gateway, metric)}, true)
  }

  /** `route add` refuses exactly a name, a row that is there already whatever its metric,
      and what the system fails; it never changes another row. */
  lemma AddExactly(routes: set<Route>, dest: Host, len: PrefixLength, gateway: string, metric: nat, fails: bool)
    ensures var (after, ok) := Add(routes, dest, len, gateway, metric, fails);
            (ok <==> !fails && dest.Address? && forall m :: Route(dest.a, len, gateway, m) !in routes) &&
            after == routes + if ok then {Route(dest.a, len, gateway, metric)} else {}
  {
    var (after, ok) := Add(routes, dest, len, gateway, metric, fails);
    if r :| dest.Address? && r in routes && r.dest == dest.a && r.len == len && r.gateway == gateway {
      assert Route(dest.a, len, gateway, r.metric) in routes;
    }
  }

  /** The environment of one enable: the route listing the detection reads, Python's
      `int` for it, whether the host is private or local, and for each add its metric and
      whether it fails. */
  datatype Environment = Environment(
    listing: Option<seq<Gateway.Line>>, toInt: string -> Option<int>, private: bool,
    metrics: (nat, nat, nat), fails: (bool, bool, bool))

  function Found(env: Environment): Option<string> {
    Gateway.Detected(env.listing, env.toInt)
  }

  predicate WantsHostRoute(env: Environment) {
    Found(env).Some? && Found(env).value != "" && !env.private
  }

  function AddHalves(routes: set<Route>, env: Environment): (set<Route>, bool) {
    var (one, ok) := Add(routes, Address(0), 1, VPN_GATEWAY, env.metrics.1, env.fails.1);
    if !ok then (one, false) else Add(one, Address(HALF), 1, VPN_GATEWAY, env.metrics.2, env.fails.2)
  }

  /** The table after `enable_full_vpn`, and whether it returned rather than raised. */
  function Enable(routes: set<Route>, host: Host, env: Environment): (set<Route>, bool) {
    var clean := Purge(routes, Some(host));
    if !WantsHostRoute(env) then AddHalves(clean, env)
    else
      var (one, ok) := Add(clean, host, 32, Found(env).value, env.metrics.0, env.fails.0);
      if !ok then (one, false) else AddHalves(one, env)
  }

  class Table {
    var routes: set<Route>

    constructor (routes: set<Route>)
      ensures this.routes == routes
    {
      this.routes := routes;
    }

    method RouteAdd(dest: Host, len: PrefixLength, gateway: string, metric: nat, fails: bool) returns (ok: bool)
      modifies this
      ensures (routes, ok) == Add(old(routes), dest, len, gateway, metric, fails)
    {
      if fails || dest.Name? || exists r :: r in routes && r.dest == dest.a && r.len == len && r.gateway == gateway {
        return false;
      }
      routes := routes + {Route(dest.a, len, gateway, metric)};
      return true;
    }

    method RouteDelete(dest: Ip, len: Option<PrefixLength>)
      modifies this
      ensures routes == set r | r in old(routes) && !(r.dest == dest && (len.None? || r.len == len.value))
    {
      routes := set r | r in routes && !(r.dest == dest && (len.None? || r.len == len.value));
    }
  }

  class RouteManager {
    const table: Table
    var enabled: bool
    var serverHost: Option<Host>

    constructor (table: Table)
      ensures this.table == table && !enabled && serverHost == None
    {
      this.table, enabled, serverHost := table, false, None;
    }

    /** `disable_full_vpn`: routes that are missing are ignored. */
    method DisableFullVpn()
      modifies this`enabled, table
      ensures table.routes == Purge(old(table.routes), serverHost) && !enabled
    {
      table.RouteDelete(0, Some(1));
      table.RouteDelete(HALF, Some(1));
      if serverHost.Some? && serverHost.value.Address? {
        table.RouteDelete(serverHost.value.a, None);
      }
      enabled := false;
    }

    /** `enable_full_vpn`; false when it raises. Off Windows it raises before anything. */
    method EnableFullVpn(host: Host, windows: bool, env: Environment) returns (ok: bool)
      modifies this, table
      ensures !windows ==>
                !ok && table.routes == old(table.routes) && enabled == old(enabled) && serverHost == old(serverHost)
      ensures windows ==>
                (table.routes, ok) == Enable(old(table.routes), host, env) && enabled == ok && serverHost == Some(host)
    {
      if !windows {
        return false;
      }
      serverHost := Some(host);
      DisableFullVpn();
      var gateway := Gateway.DetectDefaultGateway(env.listing, env.toInt);
      if gateway.Some? && gateway.value != "" && !env.private {
        ok := table.RouteAdd(host, 32, gateway.value, env.metrics.0, env.fails.0);
        if !ok {
          return;
        }
      }
      ok := table.RouteAdd(Address(0), 1, VPN_GATEWAY, env.metrics.1, env.fails.1);
      if !ok {
        return;
      }
      ok := table.RouteAdd(Address(HALF), 1, VPN_GATEWAY, env.metrics.2, env.fails.2);
      if !ok {
        return;
      }
      enabled := true;
    }
  }

  // ---------------------------------------------------------------- forwarding

  lemma Pow2Values()
    ensures Pow2(0) == 1 && Pow2(31) == HALF && Pow2(32) == SPACE
  {
    assert Pow2(8) == 256;
    assert Pow2(16) == 65536 by { assert Pow2(12) == 4096; }
    assert Pow2(24) == 16777216 by { assert Pow2(20) == 1048576; }
    assert Pow2(28) == 268435456;
  }

  /** The host route an enable gets to add to a table without one. */
  function HostRoutes(host: Host, env: Environment): set<Route> {
    if WantsHostRoute(env) && host.Address? && !env.fails.0 then {Route(host.a, 32, Found(env).value, env.metrics.0)} else {}
  }

  function Half(dest: Ip, metric: nat): Route { Route(dest, 1, VPN_GATEWAY, metric) }

  /** A successful enable leaves the purged table, the halves and the host route. */
  lemma EnabledTable(routes: set<Route>, host: Host, env: Environment)
    requires Enable(routes, host, env).1
    ensures Enable(routes, host, env).0 ==
            Purge(routes, Some(host)) + HostRoutes(host, env) + {Half(0, env.metrics.1), Half(HALF, env.metrics.2)}
    ensures WantsHostRoute(env) ==> host.Address?
  {
  }

  lemma HalfCovers(a: Ip)
    ensures forall m :: Covers(Half(0, m), a) <==> a < HALF
    ensures forall m :: Covers(Half(HALF, m), a) <==> a >= HALF
  {
    Pow2Values();
  }

  lemma HostCovers(r: Route, a: Ip)
    requires r.len == 32
    ensures Covers(r, a) <==> r.dest == a
  {
    Pow2Values();
  }

  /** A server that is neither private nor local is reached through the detected gateway,
      and through nothing else. */
  lemma ServerBypassesTunnel(routes: set<Route>, host: Host, env: Environment, gateway: string)
    requires Enable(routes, host, env).1
    requires Gateway.Detected(env.listing, env.toInt) == Some(gateway) && gateway != "" && !env.private
    ensures host.Address? && NextHops(Enable(routes, host, env).0, host.a) == {gateway}
  {
    EnabledTable(routes, host, env);
    var after := Enable(routes, host, env).0;
    var mine := Route(host.a, 32, gateway, env.metrics.0);
    HostCovers(mine, host.a);
    forall r | r in after && r.len == 32 && Covers(r, host.a)
      ensures r == mine
    {
      HostCovers(r, host.a);
    }
    assert Wins(after, host.a, mine);
    assert Winners(after, host.a) == {mine};
  }

  /** Nothing routes this server around the tunnel: it is private or local, or no gateway
      was found. */
  predicate NoBypass(env: Environment) {
    env.private || Gateway.Detected(env.listing, env.toInt) in {None, Some("")}
  }

  /** The table after an enable, in every case: the user's routes but for the halves and
      those to the server, the host route if it is called for and its add succeeds, and the
      halves as far as every add before them and their own succeed. It returns exactly when
      all adds that are called for succeed. */
  lemma EnableExactly(routes: set<Route>, host: Host, env: Environment)
    ensures var hostOk := NoBypass(env) || (host.Address? && !env.fails.0);
            var kept := set r | r in routes && !(r.len == 1 && r.dest in {0, 0x8000_0000}) && !(host.Address? && r.dest == host.a);
            Enable(routes, host, env) ==
            (kept + (if !NoBypass(env) && hostOk then {Route(host.a, 32, Found(env).value, env.metrics.0)} else {})
                  + (if hostOk && !env.fails.1 then {Route(0, 1, "10.8.0.1", env.metrics.1)} else {})
                  + (if hostOk && !env.fails.1 && !env.fails.2 then {Route(0x8000_0000, 1, "10.8.0.1", env.metrics.2)} else {}),
             hostOk && !env.fails.1 && !env.fails.2)
    ensures Found(env) == Gateway.Detected(env.listing, env.toInt)
  {
    var kept := set r | r in routes && !(r.len == 1 && r.dest in {0, 0x8000_0000}) && !(host.Address? && r.dest == host.a);
    assert kept == Purge(routes, Some(host));
    HalvesExactly(kept, env);
    if !NoBypass(env) && host.Address? && !env.fails.0 {
      HalvesExactly(kept + {Route(host.a, 32, Found(env).value, env.metrics.0)}, env);
    }
  }

  lemma HalvesExactly(routes: set<Route>, env: Environment)
    requires forall r :: r in routes ==> !(r.len == 1 && r.dest in {0, 0x8000_0000})
    ensures AddHalves(routes, env) ==
            (routes + (if !env.fails.1 then {Route(0, 1, "10.8.0.1", env.metrics.1)} else {})
                    + (if !env.fails.1 && !env.fails.2 then {Route(0x8000_0000, 1, "10.8.0.1", env.metrics.2)} else {}),
             !env.fails.1 && !env.fails.2)
  {
    var one := routes + {Route(0, 1, VPN_GATEWAY, env.metrics.1)};
    assert Add(routes, Address(0), 1, VPN_GATEWAY, env.metrics.1, env.fails.1) ==
           if env.fails.1 then (routes, false) else (one, true);
    assert forall r :: r in one && r.len == 1 ==> r.dest != HALF;
    assert Add(one, Address(HALF), 1, VPN_GATEWAY, env.metrics.2, env.fails.2) ==
           if env.fails.2 then (one, false) else (one + {Route(HALF, 1, VPN_GATEWAY, env.metrics.2)}, true);
    assert routes + {} == routes && one + {} == one;
  }

  /** An aligned row covers the addresses from its destination on, as many as its length
      leaves free. */
  lemma CoversRange(r: Route, a: Ip)
    requires r.dest % Pow2(32 - r.len) == 0
    ensures Covers(r, a) <==> r.dest <= a < r.dest + Pow2(32 - r.len)
  {
    SameQuotient(a, r.dest, Pow2(32 - r.len));
  }

  lemma SameQuotient(a: nat, d: nat, p: nat)
    requires p > 0 && d % p == 0
    ensures a / p == d / p <==> d <= a < d + p
  {
    var q, m := a / p, d / p;
    assert a == p * q + a % p && d == p * m;
    if q < m {
      assert p * (q + 1) <= p * m;
    } else if q > m {
      assert p * (m + 1) <= p * q;
    }
  }

  predicate OnLink(r: Route) { Lower(r.gateway) == "on-link" }

  predicate IsLine(env: Environment, k: nat, r: Route)
    requires env.listing.Some?
  {
    k < |env.listing.value| &&
    var line := env.listing.value[k];
    |line| >= 5 && line[0] == "0.0.0.0" && line[1] == "0.0.0.0" && Lower(line[2]) != "on-link" && r.gateway == line[2] &&
    r.metric == if env.toInt(line[4]).Some? then env.toInt(line[4]).value else 9999
  }

  predicate LinesAreRows(env: Environment, routes: set<Route>)
    requires env.listing.Some?
  {
    forall k :: 0 <= k < |env.listing.value| && Gateway.IsCandidate(env.listing.value[k]) ==>
      exists r :: r in routes && r.len == 0 && IsLine(env, k, r)
  }

  predicate RowsAreLines(env: Environment, routes: set<Route>)
    requires env.listing.Some?
  {
    forall r :: r in routes && r.len == 0 && !OnLink(r) ==>
      exists k :: 0 <= k < |env.listing.value| && IsLine(env, k, r)
  }

  /** The listing shows the default rows of the table that have a gateway, in any order;
      on-link lines and whatever else it shows do not matter. */
  predicate Lists(env: Environment, routes: set<Route>) {
    env.listing.Some? && LinesAreRows(env, routes) && RowsAreLines(env, routes)
  }

  predicate LeastDefault(routes: set<Route>, r: Route) {
    r in routes && r.len == 0 && !OnLink(r) &&
    forall s :: s in routes && s.len == 0 && !OnLink(s) ==> r.metric <= s.metric
  }

  lemma ChosenIsLeast(env: Environment, routes: set<Route>, k: nat, r: Route)
    requires env.listing.Some? && RowsAreLines(env, routes)
    requires Gateway.Chosen(env.listing.value, env.toInt, k) && r in routes && r.len == 0 && IsLine(env, k, r)
    ensures LeastDefault(routes, r) && r.gateway == env.listing.value[k][2]
  {
    forall s | s in routes && s.len == 0 && !OnLink(s)
      ensures r.metric <= s.metric
    {
      var j :| 0 <= j < |env.listing.value| && IsLine(env, j, s);
    }
  }

  lemma ChosenIsRow(env: Environment, routes: set<Route>, k: nat) returns (r: Route)
    requires env.listing.Some? && LinesAreRows(env, routes)
    requires k < |env.listing.value| && Gateway.IsCandidate(env.listing.value[k])
    ensures r in routes && r.len == 0 && IsLine(env, k, r) && !OnLink(r)
  {
    r :| r in routes && r.len == 0 && IsLine(env, k, r);
  }

  lemma NoneMeansOnLink(env: Environment, routes: set<Route>)
    requires env.listing.Some? && RowsAreLines(env, routes)
    requires forall k :: 0 <= k < |env.listing.value| ==> !Gateway.IsCandidate(env.listing.value[k])
    ensures forall r :: r in routes && r.len == 0 ==> OnLink(r)
  {
  }

  /** What the detection finds is a default row of least metric among those with a
      gateway, and it finds none exactly if there is no such row. */
  lemma FoundIsLeast(env: Environment, routes: set<Route>)
    requires Lists(env, routes)
    ensures Found(env).Some? ==> exists r :: LeastDefault(routes, r) && r.gateway == Found(env).value
    ensures Found(env).None? <==> forall r :: r in routes && r.len == 0 ==> OnLink(r)
  {
    Gateway.DetectedIsChosen(env.listing, env.toInt);
    var lines := env.listing.value;
    if Found(env).Some? {
      var k :| 0 <= k < |lines| && Gateway.Chosen(lines, env.toInt, k) && Found(env).value == lines[k][2];
      var r := ChosenIsRow(env, routes, k);
      ChosenIsLeast(env, routes, k, r);
    } else {
      NoneMeansOnLink(env, routes);
    }
  }

  lemma DefaultCovers(r: Route, a: Ip)
    requires r.len == 0
    ensures Covers(r, a)
  {
    Pow2Values();
  }

  /** An on-link default row beats every default row with a gateway. */
  predicate OnLinkFirst(routes: set<Route>) {
    exists s :: s in routes && s.len == 0 && OnLink(s) &&
      forall r :: r in routes && r.len == 0 && !OnLink(r) ==> s.metric < r.metric
  }

  /** When only default rows covered the server, enabling leaves it on one of the next
      hops it had, unless an on-link default row was ahead of all those with a gateway:
      the detection skips such rows. */
  lemma ServerKeepsItsGateway(routes: set<Route>, host: Host, env: Environment)
    requires Enable(routes, host, env).1 && !NoBypass(env) && Lists(env, Purge(routes, Some(host)))
    requires forall r :: r in Purge(routes, Some(host)) && host.Address? && Covers(r, host.a) ==> r.len == 0
    ensures host.Address?
    ensures NextHops(Enable(routes, host, env).0, host.a) <= NextHops(Purge(routes, Some(host)), host.a) <==>
            !OnLinkFirst(Purge(routes, Some(host)))
  {
    ServerBypassesTunnel(routes, host, env, Found(env).value);
    var clean, a := Purge(routes, Some(host)), host.a;
    FoundIsLeast(env, clean);
    var best :| LeastDefault(clean, best) && best.gateway == Found(env).value;
    forall r | r in clean
      ensures r.len == 0 <==> Covers(r, a)
    {
      if r.len == 0 {
        DefaultCovers(r, a);
      }
    }
    LeastWins(clean, a, best);
    assert best in Winners(clean, a) ==> best.gateway in NextHops(clean, a);
  }

  lemma LeastWins(routes: set<Route>, a: Ip, best: Route)
    requires LeastDefault(routes, best) && forall r :: r in routes ==> (r.len == 0 <==> Covers(r, a))
    ensures Wins(routes, a, best) <==> !OnLinkFirst(routes)
    ensures OnLinkFirst(routes) ==> forall r :: r in Winners(routes, a) ==> OnLink(r)
  {
    if !Wins(routes, a, best) {
      var s :| s in routes && s.len == 0 && s.metric < best.metric;
      assert OnLink(s);
    }
  }

  /** When every default row is on-link, no host route is added, and the server's own
      packets go into the tunnel unless a more specific route takes them. */
  lemma OnLinkServerIsTunnelled(routes: set<Route>, a: Ip, env: Environment)
    requires Aligned(routes) && Enable(routes, Address(a), env).1 && Lists(env, Purge(routes, Some(Address(a))))
    requires forall r :: r in Purge(routes, Some(Address(a))) && r.len == 0 ==> OnLink(r)
    ensures Gateway.Detected(env.listing, env.toInt) == None
    ensures !Specific(routes, Address(a), a) ==> NextHops(Enable(routes, Address(a), env).0, a) == {VPN_GATEWAY}
  {
    FoundIsLeast(env, Purge(routes, Some(Address(a))));
    if !Specific(routes, Address(a), a) {
      RestGoesThroughVpn(routes, Address(a), env, a);
    }
  }

  /** A route of the user's own table that is more specific than a half covers `a`. */
  predicate Specific(routes: set<Route>, host: Host, a: Ip) {
    exists r :: r in Purge(routes, Some(host)) && r.len > 1 && Covers(r, a)
  }

  lemma AlignedHalf(routes: set<Route>, r: Route)
    requires Aligned(routes) && r in routes && r.len == 1
    ensures IsHalf(r)
  {
    Pow2Values();
  }

  /** The half the enable adds on `a`'s side. */
  function OwnHalf(env: Environment, a: Ip): Route {
    if a < HALF then Half(0, env.metrics.1) else Half(HALF, env.metrics.2)
  }

  lemma OnlyDefaultsBesides(routes: set<Route>, host: Host, env: Environment, a: Ip, r: Route)
    requires Aligned(routes) && Enable(routes, host, env).1
    requires (host == Address(a) ==> NoBypass(env)) && !Specific(routes, host, a)
    requires r in Enable(routes, host, env).0 && Covers(r, a) && r != OwnHalf(env, a)
    ensures r.len < 1
  {
    EnabledTable(routes, host, env);
    HalfCovers(a);
    if r in HostRoutes(host, env) {
      HostCovers(r, a);
    } else if r.len == 1 && r in routes {
      AlignedHalf(routes, r);
    }
  }

  /** Every other address without a more specific route goes through the VPN. */
  lemma RestGoesThroughVpn(routes: set<Route>, host: Host, env: Environment, a: Ip)
    requires Aligned(routes) && Enable(routes, host, env).1
    requires (host == Address(a) ==> NoBypass(env)) && !Specific(routes, host, a)
    ensures NextHops(Enable(routes, host, env).0, a) == {VPN_GATEWAY}
  {
    var after, mine := Enable(routes, host, env).0, OwnHalf(env, a);
    EnabledTable(routes, host, env);
    HalfCovers(a);
    forall r | r in after && Covers(r, a) && r != mine
      ensures r.len < 1
    {
      OnlyDefaultsBesides(routes, host, env, a, r);
    }
    assert Wins(after, a, mine);
    assert Winners(after, a) == {mine};
  }

  /** A route more specific than a half keeps deciding, with the same winners: those of
      the purged table, which is the original one unless that held the manager's routes. */
  lemma SpecificRoutesKept(routes: set<Route>, host: Host, env: Environment, a: Ip)
    requires Enable(routes, host, env).1
    requires (host == Address(a) ==> NoBypass(env)) && Specific(routes, host, a)
    ensures Winners(Enable(routes, host, env).0, a) == Winners(Purge(routes, Some(host)), a)
    ensures Clean(routes, host) ==> Winners(Enable(routes, host, env).0, a) == Winners(routes, a)
  {
    EnabledTable(routes, host, env);
    CleanStays(routes, host);
    var before, after := Purge(routes, Some(host)), Enable(routes, host, env).0;
    var best :| best in before && best.len > 1 && Covers(best, a);
    forall r | r in after && Covers(r, a)
      ensures r in before || r.len < best.len
    {
      if r in HostRoutes(host, env) {
        HostCovers(r, a);
      }
    }
    forall r
      ensures r in Winners(after, a) <==> r in Winners(before, a)
    {
      if r in Winners(before, a) {
        assert r.len >= best.len;
      }
    }
  }

  /** No route of the manager's own shapes is in the table. */
  predicate Clean(routes: set<Route>, host: Host) {
    forall r :: r in routes ==> !IsHalf(r) && !ToHost(r, Some(host))
  }

  lemma CleanStays(routes: set<Route>, host: Host)
    ensures Purge(routes, Some(host)) == routes <==> Clean(routes, host)
  {
    if Clean(routes, host) {
      assert Purge(routes, Some(host)) == routes;
    } else {
      var r :| r in routes && (IsHalf(r) || ToHost(r, Some(host)));
      assert r !in Purge(routes, Some(host));
    }
  }

  // ---------------------------------------------------------------------- undo

  lemma EnableAddsOnlyOwn(routes: set<Route>, host: Host, env: Environment)
    ensures var after := Enable(routes, host, env).0;
            Purge(routes, Some(host)) <= after &&
            forall r :: r in after && r !in Purge(routes, Some(host)) ==> IsHalf(r) || ToHost(r, Some(host))
  {
  }

  /** Disabling after any enable, one that raised at any add included, gives back the
      original table exactly when that table had none of the manager's own routes; and
      disabling twice is disabling once. */
  lemma DisableUndoesEnable(routes: set<Route>, host: Host, env: Environment)
    ensures Purge(Enable(routes, host, env).0, Some(host)) == Purge(routes, Some(host))
    ensures Purge(Enable(routes, host, env).0, Some(host)) == routes <==> Clean(routes, host)
    ensures Purge(Purge(routes, Some(host)), Some(host)) == Purge(routes, Some(host))
  {
    EnableAddsOnlyOwn(routes, host, env);
    CleanStays(routes, host);
    var after := Enable(routes, host, env).0;
    forall r
      ensures r in Purge(after, Some(host)) <==> r in Purge(routes, Some(host))
    {
    }
  }

  /** Beside halves, any enable of a clean table leaves the old routes and the host
      route, if its add succeeded. */
  lemma EnableShape(routes: set<Route>, host: Host, env: Environment, r: Route)
    requires Clean(routes, host) && !IsHalf(r)
    ensures r in Enable(routes, host, env).0 <==> r in routes || r in HostRoutes(host, env)
  {
    CleanStays(routes, host);
  }

  /** Enabling for a second server without disabling first forgets the first one: the
      final disable leaves exactly the first server's host route behind, also when the
      first enable raised after adding it. */
  lemma SwitchingServersLeaks(routes: set<Route>, a: Host, b: Host, envA: Environment, envB: Environment)
    requires Clean(routes, a) && Clean(routes, b)
    ensures var twice := Enable(Enable(routes, a, envA).0, b, envB).0;
            Purge(twice, Some(b)) == routes + if a == b then {} else HostRoutes(a, envA)
  {
    var once := Enable(routes, a, envA).0;
    DisableUndoesEnable(once, b, envB);
    forall r
      ensures r in Purge(once, Some(b)) <==> r in routes || (a != b && r in HostRoutes(a, envA))
    {
      if !IsHalf(r) {
        EnableShape(routes, a, envA, r);
      }
    }
  }
}
