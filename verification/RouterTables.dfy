/**
 The tables one `VlanRouter` keeps (`rest_router.py`), the flow entries they stand for, and
 the switch those entries are sent to.
 */
module RouterTables {
  import opened Wrappers
  import opened Cidr

  // ---------------------------------------------------------------- entities

  type Mac = nat

  datatype Address = Address(id: nat, net: Prefix, gw: Ip)

  /** Where an ARP packet came from: the port, that port's own MAC and the sender's MAC. */
  datatype Hop = Hop(port: nat, portMac: Mac, mac: Mac)

  /**
   A static or default route. `isDefault` is the source's integer `dst_ip` 0, which is falsy,
   as opposed to the text of a network address, which never is. The source keeps `hop.mac` as
   `gateway_mac`; the port and the port's MAC it keeps only inside the installed flow.
   */
  datatype Route = Route(id: nat, isDefault: bool, net: Prefix, gateway: Ip, hop: Option<Hop>)

  /** `learned` records the implicit host flows that are on the switch. */
  datatype Tables = Tables(
    addrs: map<Prefix, Address>, nextAddr: nat,
    routes: map<Prefix, Route>, nextRoute: nat,
    learned: map<Ip, Hop>)

  const DEFAULT_NET := Prefix(0, 0)

  const EMPTY_TABLES := Tables(map[], 1, map[], 1, map[])

  // ---------------------------------------------------------------- lookups

  /** The registered address whose network contains `ip` (`AddressData.get_data(ip=...)`). */
  ghost function AddressOf(addrs: map<Prefix, Address>, ip: Ip): Option<Address> {
    if exists p :: p in addrs && Covers(p, ip) then
      var p :| p in addrs && Covers(p, ip);
      Some(addrs[p])
    else
      None
  }

  ghost predicate StaticFor(routes: map<Prefix, Route>, dst: Ip, p: Prefix) {
    p in routes && !routes[p].isDefault && Covers(p, dst)
  }

  ghost predicate IsLongest(routes: map<Prefix, Route>, dst: Ip, p: Prefix) {
    StaticFor(routes, dst, p) && forall q :: StaticFor(routes, dst, q) ==> q.len <= p.len
  }

  /** The static route with the longest matching prefix. */
  ghost function LongestStatic(routes: map<Prefix, Route>, dst: Ip): Option<Route> {
    if exists p :: IsLongest(routes, dst, p) then
      var p :| IsLongest(routes, dst, p);
      Some(routes[p])
    else
      None
  }

  /** What `RoutingTable.get_data(dst_ip=...)` returns. */
  ghost function RouteOf(routes: map<Prefix, Route>, dst: Ip): Option<Route> {
    if LongestStatic(routes, dst).Some? then LongestStatic(routes, dst)
    else if DEFAULT_NET in routes then Some(routes[DEFAULT_NET])
    else None
  }

  // ---------------------------------------------------------------- validity

  ghost predicate NetsDisjoint(addrs: map<Prefix, Address>) {
    forall p, q, ip ::
      p in addrs && q in addrs && Covers(p, ip) && Covers(q, ip) ==> p == q
  }

  ghost predicate AddrsValid(addrs: map<Prefix, Address>, nextAddr: nat) {
    && 1 <= nextAddr <= 0x10000
    && (forall p :: p in addrs ==>
          addrs[p].net == p && p == NetOf(addrs[p].gw, p.len) && 1 <= addrs[p].id < nextAddr)
    && (forall p, q :: p in addrs && q in addrs && addrs[p].id == addrs[q].id ==> p == q)
    && NetsDisjoint(addrs)
  }

  ghost predicate RoutesValid(routes: map<Prefix, Route>, nextRoute: nat) {
    && 1 <= nextRoute <= 0x10000
    && (forall p :: p in routes ==>
          routes[p].net == p && p == NetOf(p.addr, p.len) && 1 <= routes[p].id < nextRoute)
    && (forall p :: p in routes ==> (routes[p].isDefault <==> p.len == 0))
    && (forall p, q :: p in routes && q in routes && routes[p].id == routes[q].id ==> p == q)
  }

  /** Every gateway lies in a registered network and is not that network's router address. */
  ghost predicate GatewayValid(addrs: map<Prefix, Address>, gateway: Ip) {
    AddressOf(addrs, gateway).Some? && AddressOf(addrs, gateway).value.gw != gateway
  }

  ghost predicate Valid(t: Tables) {
    && AddrsValid(t.addrs, t.nextAddr)
    && RoutesValid(t.routes, t.nextRoute)
    && (forall p :: p in t.routes ==> GatewayValid(t.addrs, t.routes[p].gateway))
    && (forall ip :: ip in t.learned ==> AddressOf(t.addrs, ip).Some?)
  }

  /** With disjoint networks the order in which the dictionary is searched does not matter. */
  lemma AddressOfUnique(addrs: map<Prefix, Address>, ip: Ip, p: Prefix)
    requires NetsDisjoint(addrs) && p in addrs && Covers(p, ip)
    ensures AddressOf(addrs, ip) == Some(addrs[p])
  {
  }

  lemma AddressOfCovers(addrs: map<Prefix, Address>, nextAddr: nat, ip: Ip)
    requires AddrsValid(addrs, nextAddr) && AddressOf(addrs, ip).Some?
    ensures var a := AddressOf(addrs, ip).value;
      a.net in addrs && addrs[a.net] == a && Covers(a.net, ip)
  {
  }

  /** A registered router address lies in its own network. */
  lemma GatewayInOwnNet(addrs: map<Prefix, Address>, nextAddr: nat, p: Prefix)
    requires AddrsValid(addrs, nextAddr) && p in addrs
    ensures Covers(p, addrs[p].gw) && AddressOf(addrs, addrs[p].gw) == Some(addrs[p])
  {
    NetOfCovers(addrs[p].gw, p.len);
  }

  /** Whenever some static route matches, one of them is longest, and it is unique. */
  lemma LongestExists(routes: map<Prefix, Route>, dst: Ip, p: Prefix)
    requires StaticFor(routes, dst, p)
    ensures exists q :: IsLongest(routes, dst, q)
    decreases 32 - p.len
  {
    if q :| StaticFor(routes, dst, q) && q.len > p.len {
      LongestExists(routes, dst, q);
    } else {
      assert IsLongest(routes, dst, p);
    }
  }

  lemma LongestUnique(routes: map<Prefix, Route>, dst: Ip, p: Prefix)
    requires IsLongest(routes, dst, p)
    ensures LongestStatic(routes, dst) == Some(routes[p])
  {
    var q :| IsLongest(routes, dst, q) && LongestStatic(routes, dst) == Some(routes[q]);
    assert IsLongest(routes, dst, q);
    assert StaticFor(routes, dst, q);
    assert StaticFor(routes, dst, p);
    assert p.len == q.len;
  }

  // ---------------------------------------------------------------- priorities

  const PRIORITY_VLAN_SHIFT := 1000
  const PRIORITY_NETMASK_SHIFT := 32
  const PRIORITY_DEFAULT_ROUTING := 1
  const PRIORITY_MAC_LEARNING := 2
  const PRIORITY_STATIC_ROUTING := 2
  const PRIORITY_IMPLICIT_ROUTING := 3
  const PRIORITY_L2_SWITCHING := 4
  const PRIORITY_IP_HANDLING := 5

  function GetPriority(priorityType: nat, vid: nat): nat {
    priorityType
    + (if vid != 0 || priorityType == PRIORITY_IP_HANDLING then PRIORITY_VLAN_SHIFT else 0)
    + (if priorityType > PRIORITY_STATIC_ROUTING then PRIORITY_NETMASK_SHIFT else 0)
  }

  function GetRoutePriority(route: Route, vid: nat): nat {
    (if route.isDefault then PRIORITY_DEFAULT_ROUTING
     else PRIORITY_STATIC_ROUTING + route.net.len)
    + (if vid != 0 then PRIORITY_VLAN_SHIFT else 0)
  }

  function GetPriorityType(priority: int, vid: nat): int {
    if vid != 0 then priority - PRIORITY_VLAN_SHIFT else priority
  }

  // ---------------------------------------------------------------- cookies

  const COOKIE_VLAN_UNIT := 0x1_0000_0000
  const COOKIE_ROUTE_UNIT := 0x1_0000

  function CookieToVid(cookie: nat): nat {
    cookie / COOKIE_VLAN_UNIT
  }

  function CookieToAddressId(cookie: nat): nat {
    cookie % COOKIE_VLAN_UNIT
  }

  function CookieToRouteId(cookie: nat): nat {
    cookie % COOKIE_VLAN_UNIT / COOKIE_ROUTE_UNIT
  }

  function VlanCookie(vid: nat): nat {
    vid * COOKIE_VLAN_UNIT
  }

  function AddressCookie(vid: nat, id: nat): nat {
    vid * COOKIE_VLAN_UNIT + id
  }

  function RouteCookie(vid: nat, id: nat): nat {
    vid * COOKIE_VLAN_UNIT + id * COOKIE_ROUTE_UNIT
  }

  /** Ids that fit the 16 bits each kind of cookie leaves for them. */
  predicate IdFits(id: nat) {
    1 <= id <= 0xffff
  }

  /** Encoding and decoding are inverse, and the three kinds of cookie never meet. */
  lemma CookiePartition(vid: nat, a: nat, r: nat)
    requires IdFits(a) && IdFits(r)
    ensures CookieToVid(AddressCookie(vid, a)) == vid && CookieToAddressId(AddressCookie(vid, a)) == a
    ensures CookieToVid(RouteCookie(vid, r)) == vid && CookieToRouteId(RouteCookie(vid, r)) == r
    ensures CookieToVid(VlanCookie(vid)) == vid
    ensures CookieToRouteId(AddressCookie(vid, a)) == 0 && CookieToAddressId(RouteCookie(vid, r)) > 0xffff
    ensures CookieToAddressId(VlanCookie(vid)) == CookieToRouteId(VlanCookie(vid)) == 0
  {
  }

  /** The VLAN is above bit 32, a route id in bits 16 to 31, and an address id is all below bit 32. */
  lemma CookieFields(cookie: nat)
    ensures cookie == 0x1_0000_0000 * CookieToVid(cookie) + CookieToAddressId(cookie)
    ensures 0x1_0000 * CookieToRouteId(cookie) <= CookieToAddressId(cookie) < 0x1_0000 * (CookieToRouteId(cookie) + 1)
    ensures CookieToAddressId(cookie) < 0x1_0000_0000
  {
  }

  // ---------------------------------------------------------------- the switch

  /** IPv4 match fields; the VLAN of this router is part of every match. */
  datatype Match = Match(src: Option<Prefix>, dst: Option<Prefix>)

  datatype FlowKey = FlowKey(priority: nat, m: Match)

  /** `Forward` decrements the TTL, rewrites both MACs and outputs to the port. */
  datatype Action = Drop | ToController | Normal | Forward(hop: Hop)

  datatype Flow = Flow(cookie: nat, idleTimeout: nat, action: Action)

  type FlowTable = map<FlowKey, Flow>

  datatype FlowMod = Add(key: FlowKey, flow: Flow) | Delete(cookie: nat)

  /** Section 6.4 of OpenFlow 1.3.1: ADD replaces an identical entry, DELETE filters by cookie. */
  function ApplyMod(table: FlowTable, mod: FlowMod): FlowTable {
    match mod
    case Add(key, flow) => table[key := flow]
    case Delete(cookie) => map k | k in table && table[k].cookie != cookie :: table[k]
  }

  function ApplyMods(table: FlowTable, mods: seq<FlowMod>): FlowTable {
    if mods == [] then table
    else ApplyMod(ApplyMods(table, mods[..|mods| - 1]), mods[|mods| - 1])
  }

  predicate FieldMatches(field: Option<Prefix>, ip: Ip) {
    field.Some? ==> Covers(field.value, ip)
  }

  predicate Matches(key: FlowKey, src: Ip, dst: Ip) {
    FieldMatches(key.m.src, src) && FieldMatches(key.m.dst, dst)
  }

  /** Section 5.3 of OpenFlow 1.3.1: `key` is selected, no other matching entry ties with it. */
  ghost predicate Selected(table: FlowTable, src: Ip, dst: Ip, key: FlowKey) {
    && key in table
    && Matches(key, src, dst)
    && (forall k :: k in table && Matches(k, src, dst) && k != key ==> k.priority < key.priority)
  }

  // ---------------------------------------------------------------- what the tables compile to

  /** The priorities on the wire; the router's own addresses are above all VLANs, also without one. */
  lemma KeyPriorities(vid: nat, p: Prefix, ip: Ip, r: Route)
    ensures var shift := if vid == 0 then 0 else 1000;
      && DefaultKey(vid).priority == 1 + shift
      && LearnKey(vid, p).priority == 2 + shift
      && RouteKey(vid, r).priority == (if r.isDefault then 1 else 2 + r.net.len) + shift
      && HostKey(vid, ip).priority == 35 + shift
      && SwitchKey(vid, p).priority == 36 + shift
      && SelfKey(vid, ip).priority == 1037
  {
  }

  const IDLE_TIMEOUT := 1800

  function DstKey(priority: nat, dst: Prefix): FlowKey {
    FlowKey(priority, Match(None, Some(dst)))
  }

  function Host(ip: Ip): Prefix {
    Prefix(ip, 32)
  }

  function LearnKey(vid: nat, p: Prefix): FlowKey {
    DstKey(GetPriority(PRIORITY_MAC_LEARNING, vid), p)
  }

  function SelfKey(vid: nat, gw: Ip): FlowKey {
    DstKey(GetPriority(PRIORITY_IP_HANDLING, vid), Host(gw))
  }

  function SwitchKey(vid: nat, p: Prefix): FlowKey {
    FlowKey(GetPriority(PRIORITY_L2_SWITCHING, vid), Match(Some(p), Some(p)))
  }

  function HostKey(vid: nat, ip: Ip): FlowKey {
    DstKey(GetPriority(PRIORITY_IMPLICIT_ROUTING, vid), Host(ip))
  }

  function DefaultKey(vid: nat): FlowKey {
    FlowKey(GetPriority(PRIORITY_DEFAULT_ROUTING, vid), Match(None, None))
  }

  function RouteKey(vid: nat, route: Route): FlowKey {
    FlowKey(GetRoutePriority(route, vid), Match(None, if route.isDefault then None else Some(route.net)))
  }

  function RouteAction(route: Route): Action {
    if route.hop.Some? then Forward(route.hop.value) else ToController
  }

  function RouteFlow(vid: nat, route: Route): Flow {
    Flow(RouteCookie(vid, route.id), 0, RouteAction(route))
  }

  function DropFlow(vid: nat): Flow {
    Flow(VlanCookie(vid), 0, Drop)
  }

  /** Keys of route entries: no source field, and the priority that goes with the prefix length. */
  predicate IsRouteKey(vid: nat, k: FlowKey) {
    && k.m.src.None?
    && (k.m.dst.Some? ==>
          && k.m.dst.value.len >= 1
          && k == RouteKey(vid, Route(0, false, k.m.dst.value, 0, None)))
  }

  /** The entry the routes call for under a route key. */
  function ExpectedRoute(routes: map<Prefix, Route>, vid: nat, k: FlowKey): Option<Flow> {
    match k.m.dst
    case None =>
      if k != DefaultKey(vid) then None
      else if DEFAULT_NET in routes then Some(RouteFlow(vid, routes[DEFAULT_NET]))
      else Some(DropFlow(vid))
    case Some(p) =>
      if p in routes then Some(RouteFlow(vid, routes[p])) else None
  }

  /** The entry the addresses and learned hosts call for under any other key. */
  ghost function ExpectedAddress(addrs: map<Prefix, Address>, learned: map<Ip, Hop>, vid: nat, k: FlowKey)
    : Option<Flow>
  {
    if k.m.dst.None? then None
    else
      var p := k.m.dst.value;
      var a := AddressOf(addrs, p.addr);
      if k == SwitchKey(vid, p) && p in addrs then
        Some(Flow(AddressCookie(vid, addrs[p].id), 0, Normal))
      else if k == LearnKey(vid, p) && p in addrs then
        Some(Flow(AddressCookie(vid, addrs[p].id), 0, ToController))
      else if k == SelfKey(vid, p.addr) && a.Some? && a.value.gw == p.addr then
        Some(Flow(AddressCookie(vid, a.value.id), 0, ToController))
      else if k == HostKey(vid, p.addr) && a.Some? && p.addr in learned then
        Some(Flow(AddressCookie(vid, a.value.id), IDLE_TIMEOUT, Forward(learned[p.addr])))
      else
        None
  }

  predicate Holds(table: FlowTable, k: FlowKey, e: Option<Flow>) {
    e == if k in table then Some(table[k]) else None
  }

  ghost predicate RoutesAgree(routes: map<Prefix, Route>, vid: nat, table: FlowTable) {
    forall k :: IsRouteKey(vid, k) ==> Holds(table, k, ExpectedRoute(routes, vid, k))
  }

  ghost predicate AddressesAgree(addrs: map<Prefix, Address>, learned: map<Ip, Hop>, vid: nat,
                                 table: FlowTable)
  {
    forall k :: !IsRouteKey(vid, k) ==> Holds(table, k, ExpectedAddress(addrs, learned, vid, k))
  }

  /** The switch holds exactly the entries the tables call for. */
  ghost predicate Agrees(t: Tables, vid: nat, table: FlowTable) {
    RoutesAgree(t.routes, vid, table) && AddressesAgree(t.addrs, t.learned, vid, table)
  }

  // ---------------------------------------------------------------- what the tables mean

  datatype Decision =
    | OwnAddress(a: Address)      // the packet is for the router itself
    | SameSubnet(a: Address)      // source and destination share a registered network
    | LearnedHost(hop: Hop)       // the destination's MAC has been learned
    | StaticRoute(r: Route)       // the longest matching static route
    | UnknownHost(a: Address)     // a host of a registered network, MAC not yet learned
    | DefaultRouteOrDrop

  /** What should happen to an IPv4 packet of this VLAN, decided on the tables alone. */
  ghost function Decide(t: Tables, src: Ip, dst: Ip): Decision {
    var a := AddressOf(t.addrs, dst);
    var r := LongestStatic(t.routes, dst);
    if a.Some? && a.value.gw == dst then OwnAddress(a.value)
    else if a.Some? && Covers(a.value.net, src) then SameSubnet(a.value)
    else if dst in t.learned then LearnedHost(t.learned[dst])
    else if r.Some? then StaticRoute(r.value)
    else if a.Some? then UnknownHost(a.value)
    else DefaultRouteOrDrop
  }

  function DecisionAction(t: Tables, d: Decision): Action {
    match d
    case OwnAddress(_) => ToController
    case SameSubnet(_) => Normal
    case LearnedHost(hop) => Forward(hop)
    case StaticRoute(r) => RouteAction(r)
    case UnknownHost(_) => ToController
    case DefaultRouteOrDrop =>
      if DEFAULT_NET in t.routes then RouteAction(t.routes[DEFAULT_NET]) else Drop
  }

  ghost function Prescribed(t: Tables, src: Ip, dst: Ip): Action {
    DecisionAction(t, Decide(t, src, dst))
  }

  /** The key under which a decision is installed. */
  function DecisionKey(vid: nat, dst: Ip, d: Decision): FlowKey {
    match d
    case OwnAddress(a) => SelfKey(vid, dst)
    case SameSubnet(a) => SwitchKey(vid, a.net)
    case LearnedHost(_) => HostKey(vid, dst)
    case StaticRoute(r) => RouteKey(vid, r)
    case UnknownHost(a) => LearnKey(vid, a.net)
    case DefaultRouteOrDrop => DefaultKey(vid)
  }

  /** What a decision says about the packet and the tables it was taken on. */
  ghost predicate Justified(t: Tables, src: Ip, dst: Ip, d: Decision) {
    match d
    case OwnAddress(a) => a.net in t.addrs && t.addrs[a.net] == a && a.gw == dst
    case SameSubnet(a) =>
      a.net in t.addrs && t.addrs[a.net] == a && Covers(a.net, dst) && Covers(a.net, src)
    case LearnedHost(hop) => dst in t.learned && t.learned[dst] == hop && AddressOf(t.addrs, dst).Some?
    case StaticRoute(r) => r.net in t.routes && t.routes[r.net] == r && Covers(r.net, dst) && !r.isDefault
    case UnknownHost(a) => a.net in t.addrs && t.addrs[a.net] == a && Covers(a.net, dst)
    case DefaultRouteOrDrop => true
  }

  lemma DecideJustified(t: Tables, src: Ip, dst: Ip)
    requires Valid(t)
    ensures Justified(t, src, dst, Decide(t, src, dst))
  {
    if AddressOf(t.addrs, dst).Some? {
      AddressOfCovers(t.addrs, t.nextAddr, dst);
    }
    if LongestStatic(t.routes, dst).Some? {
      LongestCovers(t.routes, t.nextRoute, dst);
    }
  }

  lemma LongestCovers(routes: map<Prefix, Route>, nextRoute: nat, dst: Ip)
    requires RoutesValid(routes, nextRoute) && LongestStatic(routes, dst).Some?
    ensures var r := LongestStatic(routes, dst).value;
      r.net in routes && routes[r.net] == r && Covers(r.net, dst) && !r.isDefault
  {
  }

  lemma HostCovers(ip: Ip, other: Ip)
    ensures Covers(Host(ip), other) <==> ip == other
  {
    ApplyMaskEnds(other);
  }

  // What is on the switch under each kind of key.

  lemma InstalledForAddress(t: Tables, vid: nat, table: FlowTable, p: Prefix)
    requires AddrsValid(t.addrs, t.nextAddr) && Agrees(t, vid, table) && p in t.addrs
    ensures var a := t.addrs[p]; var cookie := AddressCookie(vid, a.id);
      && Holds(table, LearnKey(vid, p), Some(Flow(cookie, 0, ToController)))
      && Holds(table, SwitchKey(vid, p), Some(Flow(cookie, 0, Normal)))
      && Holds(table, SelfKey(vid, a.gw), Some(Flow(cookie, 0, ToController)))
  {
    GatewayInOwnNet(t.addrs, t.nextAddr, p);
    assert !IsRouteKey(vid, LearnKey(vid, p));
    assert !IsRouteKey(vid, SwitchKey(vid, p));
    assert !IsRouteKey(vid, SelfKey(vid, t.addrs[p].gw));
  }

  lemma InstalledForHost(t: Tables, vid: nat, table: FlowTable, ip: Ip)
    requires Agrees(t, vid, table) && ip in t.learned && AddressOf(t.addrs, ip).Some?
    ensures Holds(table, HostKey(vid, ip), Some(Flow(AddressCookie(vid, AddressOf(t.addrs, ip).value.id),
                                                     IDLE_TIMEOUT, Forward(t.learned[ip]))))
  {
    assert !IsRouteKey(vid, HostKey(vid, ip));
  }

  lemma InstalledForRoute(t: Tables, vid: nat, table: FlowTable, p: Prefix)
    requires RoutesValid(t.routes, t.nextRoute) && Agrees(t, vid, table) && p in t.routes
    ensures Holds(table, RouteKey(vid, t.routes[p]), Some(RouteFlow(vid, t.routes[p])))
  {
    ApplyMaskEnds(p.addr);
    assert IsRouteKey(vid, RouteKey(vid, t.routes[p]));
  }

  lemma InstalledForDefault(t: Tables, vid: nat, table: FlowTable)
    requires Agrees(t, vid, table)
    ensures Holds(table, DefaultKey(vid), Some(if DEFAULT_NET in t.routes
                                               then RouteFlow(vid, t.routes[DEFAULT_NET]) else DropFlow(vid)))
  {
    assert IsRouteKey(vid, DefaultKey(vid));
  }

  lemma DecisionInstalled(t: Tables, vid: nat, table: FlowTable, src: Ip, dst: Ip, d: Decision)
    requires AddrsValid(t.addrs, t.nextAddr) && RoutesValid(t.routes, t.nextRoute)
    requires Agrees(t, vid, table) && Justified(t, src, dst, d)
    ensures var k := DecisionKey(vid, dst, d); k in table && table[k].action == DecisionAction(t, d)
  {
    match d
    case OwnAddress(a) => InstalledForAddress(t, vid, table, a.net);
    case SameSubnet(a) => InstalledForAddress(t, vid, table, a.net);
    case LearnedHost(_) => InstalledForHost(t, vid, table, dst);
    case StaticRoute(r) => InstalledForRoute(t, vid, table, r.net);
    case UnknownHost(a) => InstalledForAddress(t, vid, table, a.net);
    case DefaultRouteOrDrop => InstalledForDefault(t, vid, table);
  }

  lemma DecisionMatches(t: Tables, vid: nat, src: Ip, dst: Ip, d: Decision)
    requires Justified(t, src, dst, d)
    ensures Matches(DecisionKey(vid, dst, d), src, dst)
  {
    HostCovers(dst, dst);
  }

  /** Every other route entry that matches the packet has a strictly lower priority. */
  lemma RouteEntryLoses(t: Tables, vid: nat, src: Ip, dst: Ip, k: FlowKey)
    requires RoutesValid(t.routes, t.nextRoute)
    requires IsRouteKey(vid, k) && ExpectedRoute(t.routes, vid, k).Some? && Matches(k, src, dst)
    ensures var w := DecisionKey(vid, dst, Decide(t, src, dst)); k == w || k.priority < w.priority
  {
    if k.m.dst.Some? {
      var p := k.m.dst.value;
      assert StaticFor(t.routes, dst, p);
      LongestExists(t.routes, dst, p);
      var q :| IsLongest(t.routes, dst, q);
      LongestUnique(t.routes, dst, q);
      assert StaticFor(t.routes, dst, q) && p.len <= q.len;
      StaticLoses(vid, dst, k, t.routes[q], Decide(t, src, dst));
    }
  }

  lemma StaticLoses(vid: nat, dst: Ip, k: FlowKey, longest: Route, d: Decision)
    requires IsRouteKey(vid, k) && k.m.dst.Some? && !longest.isDefault
    requires k.m.dst.value.len <= longest.net.len
    requires k.m.dst.value == longest.net || k.m.dst.value.len < longest.net.len
    requires d.OwnAddress? || d.SameSubnet? || d.LearnedHost? || d == StaticRoute(longest)
    ensures var w := DecisionKey(vid, dst, d); k == w || k.priority < w.priority
  {
  }

  /** Every other address entry that matches the packet has a strictly lower priority. */
  lemma AddressEntryLoses(t: Tables, vid: nat, src: Ip, dst: Ip, k: FlowKey)
    requires Valid(t)
    requires ExpectedAddress(t.addrs, t.learned, vid, k).Some? && Matches(k, src, dst)
    ensures var w := DecisionKey(vid, dst, Decide(t, src, dst)); k == w || k.priority < w.priority
  {
    var p := k.m.dst.value;
    var d := Decide(t, src, dst);
    DecideJustified(t, src, dst);
    if k == SwitchKey(vid, p) || k == LearnKey(vid, p) {
      AddressOfUnique(t.addrs, dst, p);
    } else {
      HostCovers(p.addr, dst);
    }
    AddressLoses(vid, src, dst, k, AddressOf(t.addrs, dst).value, d, dst in t.learned);
  }

  lemma AddressLoses(vid: nat, src: Ip, dst: Ip, k: FlowKey, a: Address, d: Decision, isLearned: bool)
    requires || (k == SwitchKey(vid, a.net) && Covers(a.net, src))
             || k == LearnKey(vid, a.net)
             || (k == SelfKey(vid, dst) && a.gw == dst)
             || (k == HostKey(vid, dst) && isLearned)
    requires match d
      case OwnAddress(b) => true
      case SameSubnet(b) => a == b && a.gw != dst
      case LearnedHost(_) => a.gw != dst && !Covers(a.net, src)
      case StaticRoute(r) => a.gw != dst && !Covers(a.net, src) && !isLearned && !r.isDefault && r.net.len > 0
      case UnknownHost(b) => a == b && a.gw != dst && !Covers(a.net, src) && !isLearned
      case DefaultRouteOrDrop => false
    ensures var w := DecisionKey(vid, dst, d); k == w || k.priority < w.priority
  {
  }

  lemma EntryLoses(t: Tables, vid: nat, src: Ip, dst: Ip, table: FlowTable, k: FlowKey)
    requires Valid(t) && Agrees(t, vid, table) && k in table && Matches(k, src, dst)
    ensures var w := DecisionKey(vid, dst, Decide(t, src, dst)); k == w || k.priority < w.priority
  {
    if IsRouteKey(vid, k) {
      assert Holds(table, k, ExpectedRoute(t.routes, vid, k));
      RouteEntryLoses(t, vid, src, dst, k);
    } else {
      assert Holds(table, k, ExpectedAddress(t.addrs, t.learned, vid, k));
      AddressEntryLoses(t, vid, src, dst, k);
    }
  }

  /**
   Compilation preserves meaning: for every IPv4 packet the switch selects exactly one entry,
   and that entry does what the tables prescribe.
   */
  lemma CompilationPreservesMeaning(t: Tables, vid: nat, table: FlowTable, src: Ip, dst: Ip)
    requires Valid(t) && Agrees(t, vid, table)
    ensures exists k :: Selected(table, src, dst, k)
    ensures forall k :: Selected(table, src, dst, k) ==> table[k].action == Prescribed(t, src, dst)
  {
    var d := Decide(t, src, dst);
    var w := DecisionKey(vid, dst, d);
    DecideJustified(t, src, dst);
    DecisionInstalled(t, vid, table, src, dst, d);
    DecisionMatches(t, vid, src, dst, d);
    forall k | k in table && Matches(k, src, dst) && k != w
      ensures k.priority < w.priority
    {
      EntryLoses(t, vid, src, dst, table, k);
    }
    assert Selected(table, src, dst, w);
  }

  /**
   What an entry must do with a packet, said of the registered networks, learned hosts and routes
   alone. A route whose gateway has answered forwards to it; one whose gateway has not asks the
   controller.
   */
  ghost predicate Treats(t: Tables, src: Ip, dst: Ip, action: Action) {
    && (forall p :: p in t.addrs && t.addrs[p].gw == dst ==> action == ToController)
    && (forall p :: p in t.addrs && Covers(p, dst) && Covers(p, src) && t.addrs[p].gw != dst ==> action == Normal)
    && ((forall p :: p in t.addrs && Covers(p, dst) ==> !Covers(p, src) && t.addrs[p].gw != dst) ==>
          && (dst in t.learned ==> action == Forward(t.learned[dst]))
          && (dst !in t.learned ==> TreatsUnlearned(t, dst, action)))
  }

  /** The longest static route decides, then the network of an unknown host, then the default route. */
  ghost predicate TreatsUnlearned(t: Tables, dst: Ip, action: Action) {
    && (forall q, h :: IsLongest(t.routes, dst, q) && t.routes[q].hop == Some(h) ==> action == Forward(h))
    && (forall q :: IsLongest(t.routes, dst, q) && t.routes[q].hop.None? ==> action == ToController)
    && ((forall q :: !StaticFor(t.routes, dst, q)) ==>
          && (forall p :: p in t.addrs && Covers(p, dst) ==> action == ToController)
          && ((forall p :: p in t.addrs ==> !Covers(p, dst)) ==>
                && (DEFAULT_NET !in t.routes ==> action == Drop)
                && (DEFAULT_NET in t.routes ==>
                      && (t.routes[DEFAULT_NET].hop.None? ==> action == ToController)
                      && forall h :: t.routes[DEFAULT_NET].hop == Some(h) ==> action == Forward(h))))
  }

  lemma PrescribedTreats(t: Tables, src: Ip, dst: Ip)
    requires Valid(t)
    ensures Treats(t, src, dst, Prescribed(t, src, dst))
  {
    forall p | p in t.addrs && Covers(p, dst)
      ensures AddressOf(t.addrs, dst) == Some(t.addrs[p]) && t.addrs[p].net == p
    {
      AddressOfUnique(t.addrs, dst, p);
    }
    forall p | p in t.addrs && t.addrs[p].gw == dst
      ensures Covers(p, dst)
    {
      GatewayInOwnNet(t.addrs, t.nextAddr, p);
    }
    if !Decide(t, src, dst).OwnAddress? && !Decide(t, src, dst).SameSubnet? && dst !in t.learned {
      PrescribedTreatsUnlearned(t, src, dst);
    }
  }

  lemma PrescribedTreatsUnlearned(t: Tables, src: Ip, dst: Ip)
    requires NetsDisjoint(t.addrs)
    requires var a := AddressOf(t.addrs, dst); a.Some? ==> a.value.gw != dst && !Covers(a.value.net, src)
    requires dst !in t.learned
    ensures TreatsUnlearned(t, dst, Prescribed(t, src, dst))
  {
    forall q | IsLongest(t.routes, dst, q)
      ensures LongestStatic(t.routes, dst) == Some(t.routes[q])
    {
      LongestUnique(t.routes, dst, q);
    }
    if forall q :: !StaticFor(t.routes, dst, q) {
      assert forall q :: IsLongest(t.routes, dst, q) ==> StaticFor(t.routes, dst, q);
    }
  }

  /** Whatever entry the switch selects for a packet treats it as the tables say. */
  lemma SelectedTreats(t: Tables, vid: nat, table: FlowTable, src: Ip, dst: Ip, k: FlowKey)
    requires Valid(t) && Agrees(t, vid, table) && Selected(table, src, dst, k)
    ensures Treats(t, src, dst, table[k].action)
  {
    CompilationPreservesMeaning(t, vid, table, src, dst);
    PrescribedTreats(t, src, dst);
  }
}
