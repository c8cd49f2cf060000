/**
 How each handler of `VlanRouter` changes the tables, and that the flow modifications it
 sends keep the switch in agreement with them.
 */
module RouterSteps {
  import opened Wrappers
  import opened Cidr
  import opened RouterTables

  const ID_MODULUS := 0x1_0000_0000

  /** The next id, wrapped to 32 bits and skipping the reserved id 0. */
  function NextId(id: nat): nat {
    if (id + 1) % ID_MODULUS == 0 then 1 else (id + 1) % ID_MODULUS
  }

  /** Ids count up by one, and go on with 1 after the largest of 32 bits. */
  lemma NextIdCounts(id: nat)
    requires 1 <= id <= 0xffff_ffff
    ensures NextId(id) == if id == 0xffff_ffff then 1 else id + 1
  {
  }

  // ---------------------------------------------------------------- adding an address

  function WithAddress(t: Tables, gw: Ip, len: PrefixLen): Tables {
    var net := NetOf(gw, len);
    t.(addrs := t.addrs[net := Address(t.nextAddr, net, gw)], nextAddr := NextId(t.nextAddr))
  }

  function AddressMods(vid: nat, a: Address): seq<FlowMod> {
    var cookie := AddressCookie(vid, a.id);
    [Add(LearnKey(vid, a.net), Flow(cookie, 0, ToController)),
     Add(SelfKey(vid, a.gw), Flow(cookie, 0, ToController)),
     Add(SwitchKey(vid, a.net), Flow(cookie, 0, Normal))]
  }

  ghost predicate NoOverlap(addrs: map<Prefix, Address>, gw: Ip, len: PrefixLen) {
    forall p :: p in addrs ==> !GatewayTest(gw, len, addrs[p].gw, p.len)
  }

  lemma AddressOfAfterAdd(addrs: map<Prefix, Address>, a: Address, ip: Ip)
    requires NetsDisjoint(addrs[a.net := a])
    requires a.net !in addrs
    ensures AddressOf(addrs[a.net := a], ip) == if Covers(a.net, ip) then Some(a) else AddressOf(addrs, ip)
  {
    var addrs' := addrs[a.net := a];
    if Covers(a.net, ip) {
      AddressOfUnique(addrs', ip, a.net);
    } else if p :| p in addrs && Covers(p, ip) {
      assert p in addrs';
      AddressOfUnique(addrs', ip, p);
      AddressOfUniqueIn(addrs, addrs', ip, p);
    } else {
      assert forall p :: p in addrs' && Covers(p, ip) ==> p in addrs;
    }
  }

  lemma AddressOfUniqueIn(addrs: map<Prefix, Address>, more: map<Prefix, Address>, ip: Ip, p: Prefix)
    requires NetsDisjoint(more) && addrs.Keys <= more.Keys && p in addrs && Covers(p, ip)
    ensures AddressOf(addrs, ip) == Some(addrs[p])
  {
    assert NetsDisjoint(addrs);
  }

  /** The gateway test of `AddressData.add` keeps registered networks pairwise disjoint. */
  lemma AddKeepsDisjoint(t: Tables, gw: Ip, len: PrefixLen)
    requires AddrsValid(t.addrs, t.nextAddr) && NoOverlap(t.addrs, gw, len)
    ensures NetOf(gw, len) !in t.addrs
    ensures NetsDisjoint(WithAddress(t, gw, len).addrs)
  {
    var net := NetOf(gw, len);
    forall p, ip | p in t.addrs && Covers(p, ip) && Covers(net, ip) ensures false {
      GatewayTestIsOverlap(gw, len, t.addrs[p].gw, p.len);
      assert Overlap(net, p);
    }
    NetOfCovers(gw, len);
  }

  /** A new network takes over no address that was already covered. */
  lemma AddressOfAfterAddress(t: Tables, gw: Ip, len: PrefixLen, ip: Ip)
    requires AddrsValid(t.addrs, t.nextAddr) && NoOverlap(t.addrs, gw, len)
    ensures var t' := WithAddress(t, gw, len); var net := NetOf(gw, len);
      && AddressOf(t'.addrs, ip) == (if Covers(net, ip) then Some(t'.addrs[net]) else AddressOf(t.addrs, ip))
      && (Covers(net, ip) ==> AddressOf(t.addrs, ip).None?)
  {
    var t' := WithAddress(t, gw, len);
    var net := NetOf(gw, len);
    AddKeepsDisjoint(t, gw, len);
    AddressOfAfterAdd(t.addrs, t'.addrs[net], ip);
    assert forall p :: p in t.addrs ==> p in t'.addrs;
  }

  lemma AddAddressAddrsValid(t: Tables, gw: Ip, len: PrefixLen)
    requires AddrsValid(t.addrs, t.nextAddr) && NoOverlap(t.addrs, gw, len) && t.nextAddr <= 0xffff
    ensures AddrsValid(WithAddress(t, gw, len).addrs, WithAddress(t, gw, len).nextAddr)
  {
    AddKeepsDisjoint(t, gw, len);
    SetAddressValid(t.addrs, t.nextAddr, Address(t.nextAddr, NetOf(gw, len), gw));
  }

  lemma SetAddressValid(addrs: map<Prefix, Address>, nextAddr: nat, a: Address)
    requires AddrsValid(addrs, nextAddr) && nextAddr <= 0xffff
    requires a.id == nextAddr && a.net == NetOf(a.gw, a.net.len)
    requires NetsDisjoint(addrs[a.net := a])
    ensures AddrsValid(addrs[a.net := a], nextAddr + 1)
  {
  }

  lemma AddAddressValid(t: Tables, gw: Ip, len: PrefixLen)
    requires Valid(t) && NoOverlap(t.addrs, gw, len) && t.nextAddr <= 0xffff
    ensures Valid(WithAddress(t, gw, len))
  {
    var t' := WithAddress(t, gw, len);
    AddAddressAddrsValid(t, gw, len);
    forall ip | AddressOf(t.addrs, ip).Some?
      ensures AddressOf(t'.addrs, ip) == AddressOf(t.addrs, ip)
    {
      AddressOfAfterAddress(t, gw, len, ip);
    }
    assert forall p :: p in t.routes ==> GatewayValid(t'.addrs, t.routes[p].gateway);
  }

  /** Under its own three keys the new address calls for what `AddressMods` installs. */
  lemma ExpectedForNewAddress(addrs: map<Prefix, Address>, learned: map<Ip, Hop>, vid: nat, p: Prefix)
    requires p in addrs && AddressOf(addrs, addrs[p].gw) == Some(addrs[p])
    ensures var a := addrs[p]; var cookie := AddressCookie(vid, a.id);
      && ExpectedAddress(addrs, learned, vid, LearnKey(vid, p)) == Some(Flow(cookie, 0, ToController))
      && ExpectedAddress(addrs, learned, vid, SwitchKey(vid, p)) == Some(Flow(cookie, 0, Normal))
      && ExpectedAddress(addrs, learned, vid, SelfKey(vid, a.gw)) == Some(Flow(cookie, 0, ToController))
  {
  }

  lemma ExpectedAfterAddress(t: Tables, vid: nat, gw: Ip, len: PrefixLen, k: FlowKey)
    requires Valid(t) && NoOverlap(t.addrs, gw, len) && k.m.dst.Some?
    requires var net := NetOf(gw, len); k !in {LearnKey(vid, net), SelfKey(vid, gw), SwitchKey(vid, net)}
    ensures ExpectedAddress(WithAddress(t, gw, len).addrs, t.learned, vid, k)
         == ExpectedAddress(t.addrs, t.learned, vid, k)
  {
    var ip := k.m.dst.value.addr;
    AddressOfAfterAddress(t, gw, len, ip);
    assert Covers(NetOf(gw, len), ip) ==> ip !in t.learned;
    ExpectedUnchangedByAdd(t.addrs, t.learned, vid, WithAddress(t, gw, len).addrs[NetOf(gw, len)], k);
  }

  lemma ExpectedUnchangedByAdd(addrs: map<Prefix, Address>, learned: map<Ip, Hop>, vid: nat, a: Address,
                               k: FlowKey)
    requires k.m.dst.Some? && k !in {LearnKey(vid, a.net), SelfKey(vid, a.gw), SwitchKey(vid, a.net)}
    requires var ip := k.m.dst.value.addr; var addrs' := addrs[a.net := a];
      && (AddressOf(addrs', ip) == if Covers(a.net, ip) then Some(a) else AddressOf(addrs, ip))
      && (Covers(a.net, ip) ==> AddressOf(addrs, ip).None? && ip !in learned)
    ensures ExpectedAddress(addrs[a.net := a], learned, vid, k) == ExpectedAddress(addrs, learned, vid, k)
  {
  }

  lemma ApplyAddressMods(table: FlowTable, vid: nat, a: Address)
    ensures var c := AddressCookie(vid, a.id);
      ApplyMods(table, AddressMods(vid, a))
      == table[LearnKey(vid, a.net) := Flow(c, 0, ToController)]
              [SelfKey(vid, a.gw) := Flow(c, 0, ToController)]
              [SwitchKey(vid, a.net) := Flow(c, 0, Normal)]
  {
    var mods := AddressMods(vid, a);
    assert mods[..2][..1] == mods[..1] && mods[..1][..0] == [];
    assert ApplyMods(table, mods[..1]) == ApplyMod(ApplyMods(table, []), mods[0]);
  }

  lemma AddAddressAgrees(t: Tables, vid: nat, gw: Ip, len: PrefixLen, table: FlowTable)
    requires Valid(t) && NoOverlap(t.addrs, gw, len) && t.nextAddr <= 0xffff
    requires Agrees(t, vid, table)
    ensures var t' := WithAddress(t, gw, len);
      Agrees(t', vid, ApplyMods(table, AddressMods(vid, t'.addrs[NetOf(gw, len)])))
  {
    var t' := WithAddress(t, gw, len);
    var net := NetOf(gw, len);
    var table' := ApplyMods(table, AddressMods(vid, t'.addrs[net]));
    ApplyAddressMods(table, vid, t'.addrs[net]);
    AddAddressAddrsValid(t, gw, len);
    GatewayInOwnNet(t'.addrs, t'.nextAddr, net);
    ExpectedForNewAddress(t'.addrs, t'.learned, vid, net);
    forall k | !IsRouteKey(vid, k)
      ensures Holds(table', k, ExpectedAddress(t'.addrs, t'.learned, vid, k))
    {
      if k !in {LearnKey(vid, net), SelfKey(vid, gw), SwitchKey(vid, net)} {
        assert Holds(table, k, ExpectedAddress(t.addrs, t.learned, vid, k));
        if k.m.dst.Some? {
          ExpectedAfterAddress(t, vid, gw, len, k);
        }
      }
    }
  }

  // ---------------------------------------------------------------- adding a route

  /**
   The destination of a route as the REST call spells it: the literal "0.0.0.0/0", or an
   address and a prefix length, `canonical` when the text is the key the dictionary uses.
   */
  datatype Destination = DefaultRoute | Network(host: Ip, len: PrefixLen, canonical: bool)

  function DestinationNet(d: Destination): Prefix {
    if d.DefaultRoute? then DEFAULT_NET else NetOf(d.host, d.len)
  }

  function WithRoute(t: Tables, isDefault: bool, net: Prefix, gateway: Ip): Tables {
    t.(routes := t.routes[net := Route(t.nextRoute, isDefault, net, gateway, None)],
       nextRoute := NextId(t.nextRoute))
  }

  function RouteMods(vid: nat, r: Route): seq<FlowMod> {
    [Add(RouteKey(vid, r), RouteFlow(vid, r))]
  }

  lemma ApplyAppended(table: FlowTable, mods: seq<FlowMod>, mod: FlowMod)
    ensures ApplyMods(table, mods + [mod]) == ApplyMod(ApplyMods(table, mods), mod)
  {
    assert (mods + [mod])[..|mods|] == mods;
  }

  function Elements<T(==)>(s: seq<T>): set<T> {
    set x | x in s
  }

  lemma {:induction false} ApplyConcat(table: FlowTable, a: seq<FlowMod>, b: seq<FlowMod>)
    ensures ApplyMods(table, a + b) == ApplyMods(ApplyMods(table, a), b)
  {
    if b == [] {
      assert a + b == a;
    } else {
      var n := |b| - 1;
      ApplyConcat(table, a, b[..n]);
      assert a + b == (a + b[..n]) + [b[n]];
      ApplyAppended(table, a + b[..n], b[n]);
    }
  }

  lemma ElementsInit<T>(s: seq<T>)
    requires |s| > 0
    ensures Elements(s) == Elements(s[..|s| - 1]) + {s[|s| - 1]}
  {
    forall x | x in s ensures x in s[..|s| - 1] || x == s[|s| - 1] {
    }
  }

  lemma ApplyOne(table: FlowTable, mod: FlowMod)
    ensures ApplyMods(table, [mod]) == ApplyMod(table, mod)
  {
    assert [mod][..0] == [];
  }

  /** A route whose destination is the literal default, or a network of length at least 1. */
  predicate ProperDestination(isDefault: bool, net: Prefix) {
    && (isDefault <==> net.len == 0)
    && net == NetOf(net.addr, net.len)
  }

  /**
   Adding a route, also one that replaces an entry stored under the same network because its
   text was spelled differently, keeps the switch in agreement.
   */
  lemma AddRouteKeeps(t: Tables, vid: nat, isDefault: bool, net: Prefix, gateway: Ip, table: FlowTable)
    requires Valid(t) && Agrees(t, vid, table) && t.nextRoute <= 0xffff
    requires ProperDestination(isDefault, net) && GatewayValid(t.addrs, gateway)
    ensures var t' := WithRoute(t, isDefault, net, gateway);
      Valid(t') && Agrees(t', vid, ApplyMods(table, RouteMods(vid, t'.routes[net])))
  {
    AddRouteTablesValid(t, isDefault, net, gateway);
    SetRouteAgrees(t, vid, WithRoute(t, isDefault, net, gateway).routes[net], table);
  }

  lemma AddRouteTablesValid(t: Tables, isDefault: bool, net: Prefix, gateway: Ip)
    requires Valid(t) && t.nextRoute <= 0xffff
    requires ProperDestination(isDefault, net) && GatewayValid(t.addrs, gateway)
    ensures Valid(WithRoute(t, isDefault, net, gateway))
  {
    AddRouteValid(t, isDefault, net, gateway);
  }

  lemma AddRouteValid(t: Tables, isDefault: bool, net: Prefix, gateway: Ip)
    requires RoutesValid(t.routes, t.nextRoute) && t.nextRoute <= 0xffff
    requires ProperDestination(isDefault, net)
    ensures var t' := WithRoute(t, isDefault, net, gateway); RoutesValid(t'.routes, t'.nextRoute)
  {
    NextIdCounts(t.nextRoute);
    SetRouteValid(t.routes, t.nextRoute, Route(t.nextRoute, isDefault, net, gateway, None), t.nextRoute + 1);
  }

  lemma SetRouteValid(routes: map<Prefix, Route>, nextRoute: nat, r: Route, nextRoute': nat)
    requires RoutesValid(routes, nextRoute) && nextRoute <= nextRoute' <= 0x10000
    requires ProperDestination(r.isDefault, r.net) && 1 <= r.id < nextRoute'
    requires forall p :: p in routes && routes[p].id == r.id ==> p == r.net
    ensures RoutesValid(routes[r.net := r], nextRoute')
  {
  }

  /** Installing one route's entry accounts for that route and disturbs nothing else. */
  lemma SetRouteAgrees(t: Tables, vid: nat, r: Route, table: FlowTable)
    requires Agrees(t, vid, table) && ProperDestination(r.isDefault, r.net)
    ensures RoutesAgree(t.routes[r.net := r], vid, ApplyMods(table, RouteMods(vid, r)))
    ensures AddressesAgree(t.addrs, t.learned, vid, ApplyMods(table, RouteMods(vid, r)))
  {
    var key := RouteKey(vid, r);
    ApplyOne(table, RouteMods(vid, r)[0]);
    ApplyMaskEnds(r.net.addr);
    assert IsRouteKey(vid, key);
    forall k | IsRouteKey(vid, k)
      ensures Holds(table[key := RouteFlow(vid, r)], k, ExpectedRoute(t.routes[r.net := r], vid, k))
    {
      assert Holds(table, k, ExpectedRoute(t.routes, vid, k));
    }
  }

  // ---------------------------------------------------------------- ARP

  predicate Refreshes(t: Tables, p: Prefix, ip: Ip, mac: Mac) {
    && p in t.routes
    && t.routes[p].gateway == ip
    && !(t.routes[p].hop.Some? && t.routes[p].hop.value.mac == mac)
  }

  /** The routes in `nets` take the new hop. */
  function WithHops(t: Tables, nets: set<Prefix>, hop: Hop): Tables {
    t.(routes := map p | p in t.routes ::
         if p in nets then t.routes[p].(hop := Some(hop)) else t.routes[p])
  }

  /** `_update_routing_tbl`: every route through `ip` whose MAC differs takes the new hop. */
  function WithGateway(t: Tables, ip: Ip, hop: Hop): Tables {
    WithHops(t, (set p | p in t.routes && Refreshes(t, p, ip, hop.mac)), hop)
  }

  predicate IsGateway(t: Tables, ip: Ip) {
    exists p :: p in t.routes && t.routes[p].gateway == ip
  }

  /** `_packetin_arp`: refresh routes if the sender is a gateway, otherwise learn the host. */
  ghost function Learn(t: Tables, ip: Ip, hop: Hop): Tables {
    if AddressOf(t.addrs, ip).None? then t
    else if IsGateway(t, ip) then WithGateway(t, ip, hop)
    else t.(learned := t.learned[ip := hop])
  }

  lemma LearnGatewayKeeps(t: Tables, vid: nat, p: Prefix, hop: Hop, table: FlowTable)
    requires Valid(t) && Agrees(t, vid, table) && p in t.routes
    ensures var t' := WithHops(t, {p}, hop);
      Valid(t') && Agrees(t', vid, ApplyMods(table, RouteMods(vid, t'.routes[p])))
  {
    var r := t.routes[p].(hop := Some(hop));
    WithOneHop(t, p, hop);
    SetRouteKeepsValid(t, r);
    SetRouteAgrees(t, vid, r, table);
  }

  lemma WithOneHop(t: Tables, p: Prefix, hop: Hop)
    requires p in t.routes
    ensures WithHops(t, {p}, hop) == t.(routes := t.routes[p := t.routes[p].(hop := Some(hop))])
  {
  }

  lemma SetRouteKeepsValid(t: Tables, r: Route)
    requires Valid(t) && r.net in t.routes
    requires r == t.routes[r.net].(hop := r.hop)
    ensures Valid(t.(routes := t.routes[r.net := r])) && ProperDestination(r.isDefault, r.net)
  {
    SetRouteValid(t.routes, t.nextRoute, r, t.nextRoute);
  }

  lemma WithHopsCompose(t: Tables, nets: set<Prefix>, p: Prefix, hop: Hop)
    ensures WithHops(WithHops(t, nets, hop), {p}, hop) == WithHops(t, nets + {p}, hop)
    ensures WithHops(t, {}, hop) == t
  {
    assert WithHops(WithHops(t, nets, hop), {p}, hop).routes == WithHops(t, nets + {p}, hop).routes;
    assert WithHops(t, {}, hop).routes == t.routes;
  }

  /** The entries sent when the routes in `order` take the new hop, one after the other. */
  function GatewayMods(t: Tables, vid: nat, order: seq<Prefix>, hop: Hop): seq<FlowMod>
    requires forall p :: p in order ==> p in t.routes
  {
    if order == [] then []
    else
      var p := order[|order| - 1];
      GatewayMods(t, vid, order[..|order| - 1], hop)
      + RouteMods(vid, t.routes[p].(hop := Some(hop)))
  }

  lemma {:induction false} LearnGatewaysKeeps(t: Tables, vid: nat, order: seq<Prefix>, hop: Hop, table: FlowTable)
    requires Valid(t) && Agrees(t, vid, table) && forall p :: p in order ==> p in t.routes
    ensures var t' := WithHops(t, Elements(order), hop);
      Valid(t') && Agrees(t', vid, ApplyMods(table, GatewayMods(t, vid, order, hop)))
  {
    var t' := WithHops(t, Elements(order), hop);
    var table' := ApplyMods(table, GatewayMods(t, vid, order, hop));
    if order == [] {
      WithHopsCompose(t, {}, DEFAULT_NET, hop);
      assert Elements(order) == {};
      assert t' == t && table' == table;
    } else {
      var rest, p := order[..|order| - 1], order[|order| - 1];
      var before := ApplyMods(table, GatewayMods(t, vid, rest, hop));
      LearnGatewaysKeeps(t, vid, rest, hop, table);
      LearnOneMore(t, vid, Elements(rest), p, hop, before);
      ElementsInit(order);
      ApplyConcat(table, GatewayMods(t, vid, rest, hop), RouteMods(vid, t.routes[p].(hop := Some(hop))));
    }
  }

  lemma LearnOneMore(t: Tables, vid: nat, nets: set<Prefix>, p: Prefix, hop: Hop, table: FlowTable)
    requires p in t.routes
    requires Valid(WithHops(t, nets, hop)) && Agrees(WithHops(t, nets, hop), vid, table)
    ensures var t' := WithHops(t, nets + {p}, hop);
      Valid(t') && Agrees(t', vid, ApplyMods(table, RouteMods(vid, t.routes[p].(hop := Some(hop)))))
  {
    LearnGatewayKeeps(WithHops(t, nets, hop), vid, p, hop, table);
    WithHopsCompose(t, nets, p, hop);
  }

  function HostMods(vid: nat, id: nat, ip: Ip, hop: Hop): seq<FlowMod> {
    [Add(HostKey(vid, ip), Flow(AddressCookie(vid, id), IDLE_TIMEOUT, Forward(hop)))]
  }

  lemma LearnHostKeeps(t: Tables, vid: nat, ip: Ip, hop: Hop, table: FlowTable)
    requires Valid(t) && Agrees(t, vid, table) && AddressOf(t.addrs, ip).Some?
    ensures var t' := t.(learned := t.learned[ip := hop]);
      Valid(t') && Agrees(t', vid, ApplyMods(table, HostMods(vid, AddressOf(t.addrs, ip).value.id, ip, hop)))
  {
    var t' := t.(learned := t.learned[ip := hop]);
    var mods := HostMods(vid, AddressOf(t.addrs, ip).value.id, ip, hop);
    ApplyOne(table, mods[0]);
    HostEntryAgrees(t, t', vid, ip, table, ApplyMods(table, mods));
  }

  /** A change to one host's entry that matches what is learned about that host. */
  lemma HostEntryAgrees(t: Tables, t': Tables, vid: nat, ip: Ip, table: FlowTable, table': FlowTable)
    requires Agrees(t, vid, table) && t' == t.(learned := t'.learned)
    requires forall other :: other != ip ==> (other in t.learned <==> other in t'.learned)
    requires forall other :: other != ip && other in t.learned ==> t'.learned[other] == t.learned[other]
    requires forall k :: k != HostKey(vid, ip) ==> (k in table' <==> k in table)
    requires forall k :: k != HostKey(vid, ip) && k in table ==> table'[k] == table[k]
    requires Holds(table', HostKey(vid, ip), ExpectedAddress(t'.addrs, t'.learned, vid, HostKey(vid, ip)))
    ensures Agrees(t', vid, table')
  {
    assert !IsRouteKey(vid, HostKey(vid, ip));
    forall k | IsRouteKey(vid, k) ensures Holds(table', k, ExpectedRoute(t.routes, vid, k)) {
      assert Holds(table, k, ExpectedRoute(t.routes, vid, k));
    }
    forall k | !IsRouteKey(vid, k)
      ensures Holds(table', k, ExpectedAddress(t'.addrs, t'.learned, vid, k))
    {
      assert Holds(table, k, ExpectedAddress(t.addrs, t.learned, vid, k));
    }
  }

  /** The switch may drop an idle host entry at any time. */
  lemma ExpireHostKeeps(t: Tables, vid: nat, ip: Ip, table: FlowTable)
    requires Valid(t) && Agrees(t, vid, table)
    ensures var t' := t.(learned := t.learned - {ip});
      Valid(t') && Agrees(t', vid, table - {HostKey(vid, ip)})
  {
    var t' := t.(learned := t.learned - {ip});
    HostEntryAgrees(t, t', vid, ip, table, table - {HostKey(vid, ip)});
  }

  // ---------------------------------------------------------------- deleting addresses

  ghost predicate OwnedBy(addrs: map<Prefix, Address>, ip: Ip, ids: set<nat>) {
    AddressOf(addrs, ip).Some? && AddressOf(addrs, ip).value.id in ids
  }

  function AddressesWithout(addrs: map<Prefix, Address>, ids: set<nat>): map<Prefix, Address> {
    map p | p in addrs && addrs[p].id !in ids :: addrs[p]
  }

  /** The addresses with these ids are gone, and with them the hosts learned in their networks. */
  ghost function WithoutAddresses(t: Tables, ids: set<nat>): Tables {
    t.(addrs := AddressesWithout(t.addrs, ids),
       learned := map ip | ip in t.learned && !OwnedBy(t.addrs, ip, ids) :: t.learned[ip])
  }

  /** Some route's gateway lies in the network of the address with this id. */
  ghost predicate Related(t: Tables, id: nat) {
    exists p :: p in t.routes && OwnedBy(t.addrs, t.routes[p].gateway, {id})
  }

  lemma AddressOfAfterDelete(addrs: map<Prefix, Address>, ids: set<nat>, ip: Ip)
    requires NetsDisjoint(addrs)
    ensures AddressOf(AddressesWithout(addrs, ids), ip)
         == if OwnedBy(addrs, ip, ids) then None else AddressOf(addrs, ip)
  {
    var addrs' := AddressesWithout(addrs, ids);
    if AddressOf(addrs, ip).Some? && !OwnedBy(addrs, ip, ids) {
      var p :| p in addrs && Covers(p, ip) && AddressOf(addrs, ip) == Some(addrs[p]);
      assert p in addrs';
    }
  }

  lemma DeleteAddressesValid(t: Tables, ids: set<nat>)
    requires Valid(t) && forall id :: id in ids ==> !Related(t, id)
    ensures Valid(WithoutAddresses(t, ids))
  {
    var t' := WithoutAddresses(t, ids);
    AddressesWithoutValid(t.addrs, t.nextAddr, ids);
    forall p | p in t.routes ensures GatewayValid(t'.addrs, t.routes[p].gateway) {
      AddressOfAfterDelete(t.addrs, ids, t.routes[p].gateway);
      assert OwnedBy(t.addrs, t.routes[p].gateway, {AddressOf(t.addrs, t.routes[p].gateway).value.id});
    }
    forall ip | ip in t'.learned ensures AddressOf(t'.addrs, ip).Some? {
      AddressOfAfterDelete(t.addrs, ids, ip);
    }
  }

  lemma AddressesWithoutValid(addrs: map<Prefix, Address>, nextAddr: nat, ids: set<nat>)
    requires AddrsValid(addrs, nextAddr)
    ensures AddrsValid(AddressesWithout(addrs, ids), nextAddr)
  {
  }

  /** Removing one id after others is removing them all. */
  lemma DeleteAddressesCompose(t: Tables, ids: set<nat>, id: nat)
    requires NetsDisjoint(t.addrs)
    ensures WithoutAddresses(WithoutAddresses(t, ids), {id}) == WithoutAddresses(t, ids + {id})
  {
    var t' := WithoutAddresses(t, ids);
    forall ip | ip in t'.learned
      ensures OwnedBy(t'.addrs, ip, {id}) <==> OwnedBy(t.addrs, ip, ids + {id})
    {
      AddressOfAfterDelete(t.addrs, ids, ip);
    }
    assert AddressesWithout(t'.addrs, {id}) == AddressesWithout(t.addrs, ids + {id});
    assert WithoutAddresses(t', {id}).learned == WithoutAddresses(t, ids + {id}).learned;
  }

  ghost predicate HasId(addrs: map<Prefix, Address>, id: nat) {
    exists p :: p in addrs && addrs[p].id == id
  }

  /** One more turn of the deletion loop, whether or not the id was already gone. */
  lemma DeleteForgets(t: Tables, ids: seq<nat>, id: nat)
    requires AddrsValid(t.addrs, t.nextAddr)
    ensures var t' := WithoutAddresses(t, Elements(ids));
      && AddrsValid(t'.addrs, t'.nextAddr)
      && WithoutAddresses(t', {id}) == WithoutAddresses(t, Elements(ids + [id]))
      && (HasId(t'.addrs, id) ==> HasId(t.addrs, id))
      && (HasId(t.addrs, id) && id !in ids ==> HasId(t'.addrs, id))
  {
    AddressesWithoutValid(t.addrs, t.nextAddr, Elements(ids));
    ElementsInit(ids + [id]);
    assert (ids + [id])[..|ids|] == ids;
    DeleteAddressesCompose(t, Elements(ids), id);
    if HasId(t.addrs, id) && id !in ids {
      var p :| p in t.addrs && t.addrs[p].id == id;
      assert p in AddressesWithout(t.addrs, Elements(ids));
    }
  }

  /** An address's cookie selects its own entries: the network's, its own and its hosts'. */
  lemma AddressCookieSelects(t: Tables, vid: nat, id: nat, k: FlowKey)
    requires AddrsValid(t.addrs, t.nextAddr) && IdFits(id) && k.m.dst.Some?
    requires ExpectedAddress(t.addrs, t.learned, vid, k).Some?
    ensures var t' := WithoutAddresses(t, {id});
      ExpectedAddress(t'.addrs, t'.learned, vid, k)
      == if ExpectedAddress(t.addrs, t.learned, vid, k).value.cookie == AddressCookie(vid, id)
         then None else ExpectedAddress(t.addrs, t.learned, vid, k)
  {
    AddressOfAfterDelete(t.addrs, {id}, k.m.dst.value.addr);
  }

  lemma NoEntryAppears(t: Tables, vid: nat, id: nat, k: FlowKey)
    requires AddrsValid(t.addrs, t.nextAddr)
    requires ExpectedAddress(t.addrs, t.learned, vid, k).None?
    ensures var t' := WithoutAddresses(t, {id}); ExpectedAddress(t'.addrs, t'.learned, vid, k).None?
  {
    if k.m.dst.Some? {
      AddressOfAfterDelete(t.addrs, {id}, k.m.dst.value.addr);
    }
  }

  /** Route entries and the drop entry never carry an address's cookie. */
  lemma RouteCookiesApart(t: Tables, vid: nat, id: nat, k: FlowKey)
    requires RoutesValid(t.routes, t.nextRoute) && IdFits(id) && IsRouteKey(vid, k)
    ensures var e := ExpectedRoute(t.routes, vid, k); e.Some? ==> e.value.cookie != AddressCookie(vid, id)
  {
  }

  lemma DeleteAddressKeeps(t: Tables, vid: nat, id: nat, table: FlowTable)
    requires Valid(t) && Agrees(t, vid, table) && IdFits(id) && !Related(t, id)
    ensures Valid(WithoutAddresses(t, {id}))
    ensures Agrees(WithoutAddresses(t, {id}), vid, ApplyMod(table, Delete(AddressCookie(vid, id))))
  {
    var t' := WithoutAddresses(t, {id});
    var table' := ApplyMod(table, Delete(AddressCookie(vid, id)));
    DeleteAddressesValid(t, {id});
    forall k | IsRouteKey(vid, k) ensures Holds(table', k, ExpectedRoute(t'.routes, vid, k)) {
      assert Holds(table, k, ExpectedRoute(t.routes, vid, k));
      RouteCookiesApart(t, vid, id, k);
    }
    forall k | !IsRouteKey(vid, k)
      ensures Holds(table', k, ExpectedAddress(t'.addrs, t'.learned, vid, k))
    {
      assert Holds(table, k, ExpectedAddress(t.addrs, t.learned, vid, k));
      if ExpectedAddress(t.addrs, t.learned, vid, k).Some? {
        AddressCookieSelects(t, vid, id, k);
      } else {
        NoEntryAppears(t, vid, id, k);
      }
    }
  }

  function AddressDeletes(vid: nat, ids: seq<nat>): seq<FlowMod> {
    if ids == [] then []
    else AddressDeletes(vid, ids[..|ids| - 1]) + [Delete(AddressCookie(vid, ids[|ids| - 1]))]
  }

  /** Deleting any list of unreferenced addresses, in any order and with repetitions. */
  lemma {:induction false} DeleteAddressesKeep(t: Tables, vid: nat, ids: seq<nat>, table: FlowTable)
    requires Valid(t) && Agrees(t, vid, table)
    requires forall id :: id in ids ==> IdFits(id) && !Related(t, id)
    ensures var t' := WithoutAddresses(t, Elements(ids));
      Valid(t') && Agrees(t', vid, ApplyMods(table, AddressDeletes(vid, ids)))
  {
    var t' := WithoutAddresses(t, Elements(ids));
    var table' := ApplyMods(table, AddressDeletes(vid, ids));
    if ids == [] {
      WithoutNone(t);
      assert Elements(ids) == {};
      assert t' == t && table' == table;
    } else {
      var rest, id := ids[..|ids| - 1], ids[|ids| - 1];
      var before := ApplyMods(table, AddressDeletes(vid, rest));
      DeleteAddressesKeep(t, vid, rest, table);
      DeleteOneMore(t, vid, Elements(rest), id, before);
      ElementsInit(ids);
      ApplyAppended(table, AddressDeletes(vid, rest), Delete(AddressCookie(vid, id)));
      assert table' == ApplyMod(before, Delete(AddressCookie(vid, id)));
    }
  }

  lemma WithoutNone(t: Tables)
    ensures WithoutAddresses(t, {}) == t && WithoutRoutes(t, {}) == t
  {
    assert AddressesWithout(t.addrs, {}) == t.addrs;
    assert WithoutAddresses(t, {}).learned == t.learned;
    assert RoutesWithout(t.routes, {}) == t.routes;
  }

  lemma DeleteOneMore(t: Tables, vid: nat, ids: set<nat>, id: nat, table: FlowTable)
    requires NetsDisjoint(t.addrs) && IdFits(id) && !Related(t, id)
    requires Valid(WithoutAddresses(t, ids)) && Agrees(WithoutAddresses(t, ids), vid, table)
    ensures var t' := WithoutAddresses(t, ids + {id});
      Valid(t') && Agrees(t', vid, ApplyMod(table, Delete(AddressCookie(vid, id))))
  {
    DeleteAddressesCompose(t, ids, id);
    StillUnrelated(t, ids, id);
    DeleteAddressKeeps(WithoutAddresses(t, ids), vid, id, table);
  }

  lemma StillUnrelated(t: Tables, ids: set<nat>, id: nat)
    requires NetsDisjoint(t.addrs) && !Related(t, id)
    ensures !Related(WithoutAddresses(t, ids), id)
  {
    forall p | p in t.routes
      ensures !OwnedBy(AddressesWithout(t.addrs, ids), t.routes[p].gateway, {id})
    {
      AddressOfAfterDelete(t.addrs, ids, t.routes[p].gateway);
      assert !OwnedBy(t.addrs, t.routes[p].gateway, {id});
    }
  }

  // ---------------------------------------------------------------- deleting routes

  function RoutesWithout(routes: map<Prefix, Route>, ids: set<nat>): map<Prefix, Route> {
    map p | p in routes && routes[p].id !in ids :: routes[p]
  }

  function WithoutRoutes(t: Tables, ids: set<nat>): Tables {
    t.(routes := RoutesWithout(t.routes, ids))
  }

  lemma DeleteRoutesValid(t: Tables, ids: set<nat>)
    requires Valid(t)
    ensures Valid(WithoutRoutes(t, ids))
  {
    RoutesWithoutValid(t.routes, t.nextRoute, ids);
  }

  lemma RoutesWithoutValid(routes: map<Prefix, Route>, nextRoute: nat, ids: set<nat>)
    requires RoutesValid(routes, nextRoute)
    ensures RoutesValid(RoutesWithout(routes, ids), nextRoute)
  {
  }

  lemma RoutesWithoutStep(routes: map<Prefix, Route>, nextRoute: nat, ids: set<nat>, id: nat)
    requires RoutesValid(routes, nextRoute)
    ensures RoutesValid(RoutesWithout(routes, ids), nextRoute)
    ensures RoutesWithout(RoutesWithout(routes, ids), {id}) == RoutesWithout(routes, ids + {id})
  {
  }

  lemma AddressCookiesApart(t: Tables, vid: nat, id: nat, k: FlowKey)
    requires AddrsValid(t.addrs, t.nextAddr) && IdFits(id)
    ensures var e := ExpectedAddress(t.addrs, t.learned, vid, k);
      e.Some? ==> e.value.cookie != RouteCookie(vid, id)
  {
    if k.m.dst.Some? && AddressOf(t.addrs, k.m.dst.value.addr).Some? {
      AddressOfCovers(t.addrs, t.nextAddr, k.m.dst.value.addr);
    }
  }

  /** One flow entry of a statistics dump; `delete_flow` and the loops around it use these fields. */
  datatype FlowStats = FlowStats(priority: nat, cookie: nat)

  function RouteStatMods(vid: nat, st: FlowStats): seq<FlowMod> {
    [Delete(st.cookie)]
    + if GetPriorityType(st.priority, vid) == PRIORITY_DEFAULT_ROUTING
      then [Add(DefaultKey(vid), DropFlow(vid))] else []
  }

  function RouteStatsMods(vid: nat, stats: seq<FlowStats>): seq<FlowMod> {
    if stats == [] then []
    else RouteStatsMods(vid, stats[..|stats| - 1]) + RouteStatMods(vid, stats[|stats| - 1])
  }

  function RouteStatIds(stats: seq<FlowStats>): set<nat> {
    set st | st in Elements(stats) :: CookieToRouteId(st.cookie)
  }

  lemma RouteStatIdsInit(stats: seq<FlowStats>)
    requires |stats| > 0
    ensures RouteStatIds(stats)
         == RouteStatIds(stats[..|stats| - 1]) + {CookieToRouteId(stats[|stats| - 1].cookie)}
  {
    ElementsInit(stats);
  }

  predicate IsDefaultStat(vid: nat, st: FlowStats) {
    GetPriorityType(st.priority, vid) == PRIORITY_DEFAULT_ROUTING
  }

  predicate HasDefaultStat(vid: nat, stats: seq<FlowStats>) {
    exists st :: st in stats && IsDefaultStat(vid, st)
  }

  /**
   What is known of a reported route entry, however old the report: its route was added before now,
   and if that route still exists the entry has its priority.
   */
  predicate StatOk(t: Tables, vid: nat, st: FlowStats) {
    var id := CookieToRouteId(st.cookie);
    CookieToVid(st.cookie) == vid && id != 0 ==>
      && id < t.nextRoute
      && st.cookie == RouteCookie(vid, id)
      && forall p :: p in t.routes && t.routes[p].id == id ==> st.priority == GetRoutePriority(t.routes[p], vid)
  }

  predicate IsRouteStat(t: Tables, vid: nat, st: FlowStats) {
    CookieToVid(st.cookie) == vid && IdFits(CookieToRouteId(st.cookie)) && StatOk(t, vid, st)
  }

  /** A report from before the present default route makes the handler put the drop entry in its place. */
  predicate OverwritesDefault(t: Tables, vid: nat, stats: seq<FlowStats>) {
    && HasDefaultStat(vid, stats)
    && DEFAULT_NET in t.routes
    && t.routes[DEFAULT_NET].id !in RouteStatIds(stats)
  }

  predicate HasCookie(stats: seq<FlowStats>, cookie: nat) {
    exists st :: st in stats && st.cookie == cookie
  }

  /** What is left under a key when a list of route entries has been deleted. */
  function AfterStats(table: FlowTable, vid: nat, stats: seq<FlowStats>, k: FlowKey): Option<Flow> {
    if k == DefaultKey(vid) && HasDefaultStat(vid, stats) then Some(DropFlow(vid))
    else if k in table && !HasCookie(stats, table[k].cookie) then Some(table[k])
    else None
  }

  lemma ApplyRouteStat(table: FlowTable, vid: nat, st: FlowStats)
    ensures var deleted := ApplyMod(table, Delete(st.cookie));
      ApplyMods(table, RouteStatMods(vid, st))
      == if IsDefaultStat(vid, st) then deleted[DefaultKey(vid) := DropFlow(vid)] else deleted
  {
    var mods := RouteStatMods(vid, st);
    ApplyOne(table, mods[0]);
    if |mods| == 2 {
      assert mods[..1] == [mods[0]];
    } else {
      assert mods == [mods[0]];
    }
  }

  lemma {:induction false} ApplyRouteStats(table: FlowTable, vid: nat, stats: seq<FlowStats>, k: FlowKey)
    requires !HasCookie(stats, VlanCookie(vid))
    ensures Holds(ApplyMods(table, RouteStatsMods(vid, stats)), k, AfterStats(table, vid, stats, k))
  {
    if stats != [] {
      var rest, st := stats[..|stats| - 1], stats[|stats| - 1];
      StatsInit(vid, stats);
      ApplyRouteStats(table, vid, rest, k);
      var before := ApplyMods(table, RouteStatsMods(vid, rest));
      ApplyConcat(table, RouteStatsMods(vid, rest), RouteStatMods(vid, st));
      ApplyRouteStat(before, vid, st);
    }
  }

  lemma StatsInit(vid: nat, stats: seq<FlowStats>)
    requires |stats| > 0
    ensures var rest, st := stats[..|stats| - 1], stats[|stats| - 1];
      && (HasDefaultStat(vid, stats) <==> HasDefaultStat(vid, rest) || IsDefaultStat(vid, st))
      && forall cookie :: HasCookie(stats, cookie) <==> HasCookie(rest, cookie) || st.cookie == cookie
  {
    var rest, st := stats[..|stats| - 1], stats[|stats| - 1];
    assert stats == rest + [st];
    assert forall x :: x in stats <==> x in rest || x == st;
  }

  lemma StatCookies(t: Tables, vid: nat, stats: seq<FlowStats>, id: nat)
    requires (forall st :: st in stats ==> IsRouteStat(t, vid, st)) && IdFits(id)
    ensures HasCookie(stats, RouteCookie(vid, id)) <==> id in RouteStatIds(stats)
    ensures !HasCookie(stats, VlanCookie(vid))
  {
    CookiePartition(vid, 1, id);
    if id in RouteStatIds(stats) {
      var st :| st in stats && CookieToRouteId(st.cookie) == id;
      assert IsRouteStat(t, vid, st);
    }
  }

  /** Under keys of addresses nothing changes. */
  lemma AddressesAfterStats(t: Tables, vid: nat, stats: seq<FlowStats>, table: FlowTable, k: FlowKey)
    requires AddrsValid(t.addrs, t.nextAddr) && AddressesAgree(t.addrs, t.learned, vid, table)
    requires (forall st :: st in stats ==> IsRouteStat(t, vid, st)) && !IsRouteKey(vid, k)
    ensures Holds(table, k, AfterStats(table, vid, stats, k))
  {
    assert Holds(table, k, ExpectedAddress(t.addrs, t.learned, vid, k));
    if k in table && HasCookie(stats, table[k].cookie) {
      var st :| st in stats && st.cookie == table[k].cookie;
      assert IsRouteStat(t, vid, st);
      AddressCookiesApart(t, vid, CookieToRouteId(st.cookie), k);
    }
    assert IsRouteKey(vid, DefaultKey(vid));
  }

  /** Under keys of routes exactly the listed routes go, but for the entry of the default route. */
  lemma RoutesAfterStats(t: Tables, vid: nat, stats: seq<FlowStats>, table: FlowTable, k: FlowKey)
    requires RoutesValid(t.routes, t.nextRoute) && RoutesAgree(t.routes, vid, table)
    requires (forall st :: st in stats ==> IsRouteStat(t, vid, st)) && IsRouteKey(vid, k)
    ensures ExpectedRoute(WithoutRoutes(t, RouteStatIds(stats)).routes, vid, k) == AfterStats(table, vid, stats, k)
       <==> !(k == DefaultKey(vid) && OverwritesDefault(t, vid, stats))
  {
    assert Holds(table, k, ExpectedRoute(t.routes, vid, k));
    var e := ExpectedRoute(t.routes, vid, k);
    var p := if k.m.dst.Some? then k.m.dst.value else DEFAULT_NET;
    if p in t.routes {
      StatCookies(t, vid, stats, t.routes[p].id);
      if k == DefaultKey(vid) {
        DefaultListed(t, vid, stats);
      }
    } else {
      StatCookies(t, vid, stats, 1);
    }
  }

  /** The entry of the present default route is listed with its priority. */
  lemma DefaultListed(t: Tables, vid: nat, stats: seq<FlowStats>)
    requires RoutesValid(t.routes, t.nextRoute) && DEFAULT_NET in t.routes
    requires forall st :: st in stats ==> IsRouteStat(t, vid, st)
    ensures t.routes[DEFAULT_NET].id in RouteStatIds(stats) ==> HasDefaultStat(vid, stats)
  {
    var id := t.routes[DEFAULT_NET].id;
    if id in RouteStatIds(stats) {
      var st :| st in stats && CookieToRouteId(st.cookie) == id;
      assert IsRouteStat(t, vid, st);
      assert IsDefaultStat(vid, st);
    }
  }

  /**
   Deleting the entries of any list of routes, in any order, with repetitions and from any report of
   the past, keeps the tables valid; it keeps the switch in agreement if and only if it does not
   overwrite a default route that is not listed.
   */
  lemma DeleteRoutesKeep(t: Tables, vid: nat, stats: seq<FlowStats>, table: FlowTable)
    requires Valid(t) && Agrees(t, vid, table)
    requires forall st :: st in stats ==> IsRouteStat(t, vid, st)
    ensures Valid(WithoutRoutes(t, RouteStatIds(stats)))
    ensures Agrees(WithoutRoutes(t, RouteStatIds(stats)), vid, ApplyMods(table, RouteStatsMods(vid, stats)))
       <==> !OverwritesDefault(t, vid, stats)
  {
    var t' := WithoutRoutes(t, RouteStatIds(stats));
    var table' := ApplyMods(table, RouteStatsMods(vid, stats));
    DeleteRoutesValid(t, RouteStatIds(stats));
    StatCookies(t, vid, stats, 1);
    forall k
      ensures Holds(table', k, AfterStats(table, vid, stats, k))
    {
      ApplyRouteStats(table, vid, stats, k);
    }
    forall k | !IsRouteKey(vid, k)
      ensures Holds(table', k, ExpectedAddress(t'.addrs, t'.learned, vid, k))
    {
      AddressesAfterStats(t, vid, stats, table, k);
      assert Holds(table, k, ExpectedAddress(t.addrs, t.learned, vid, k));
    }
    forall k | IsRouteKey(vid, k)
      ensures Holds(table', k, ExpectedRoute(t'.routes, vid, k))
         <==> !(k == DefaultKey(vid) && OverwritesDefault(t, vid, stats))
    {
      RoutesAfterStats(t, vid, stats, table, k);
    }
    assert IsRouteKey(vid, DefaultKey(vid));
  }
}
