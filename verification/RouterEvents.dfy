/**
 What the handlers of `VlanRouter` do between two waits, as events on the tables, and what each of
 them keeps.
 */
module RouterEvents {
  import opened Wrappers
  import opened Cidr
  import opened RouterTables
  import opened RouterSteps

  // ---------------------------------------------------------------- choosing entries to delete

  /** The ids of the addresses whose networks hold the gateways of the routes in `nets`. */
  ghost function GatewayIds(t: Tables, nets: set<Prefix>): set<nat> {
    set p | p in nets && p in t.routes && AddressOf(t.addrs, t.routes[p].gateway).Some?
        :: AddressOf(t.addrs, t.routes[p].gateway).value.id
  }

  lemma GatewayIdsAdd(t: Tables, nets: set<Prefix>, p: Prefix)
    requires p in t.routes
    ensures var a := AddressOf(t.addrs, t.routes[p].gateway);
      GatewayIds(t, nets + {p}) == GatewayIds(t, nets) + if a.Some? then {a.value.id} else {}
  {
  }

  /** What `_chk_addr_relation_route` reports: `which` is `None` for "all". */
  ghost function SkipIds(t: Tables, which: Option<nat>): set<nat> {
    var related := GatewayIds(t, t.routes.Keys);
    if which.None? then related
    else if which.value in related then {which.value}
    else {}
  }

  /** The skip list after the routes in `done` have been looked at. */
  ghost predicate SkipSoFar(t: Tables, which: Option<nat>, done: set<Prefix>, skip: set<nat>) {
    if which.None? then skip == GatewayIds(t, done)
    else skip == {} && which.value !in GatewayIds(t, done)
  }

  lemma SkipStep(t: Tables, which: Option<nat>, done: set<Prefix>, p: Prefix, skip: set<nat>)
    requires p in t.routes && SkipSoFar(t, which, done, skip)
    ensures var a := AddressOf(t.addrs, t.routes[p].gateway);
      if a.None? || (which.Some? && a.value.id != which.value) then SkipSoFar(t, which, done + {p}, skip)
      else if which.None? then SkipSoFar(t, which, done + {p}, skip + {a.value.id})
      else SkipIds(t, which) == {which.value}
  {
    GatewayIdsAdd(t, done, p);
    if which.Some? && AddressOf(t.addrs, t.routes[p].gateway).Some? {
      assert AddressOf(t.addrs, t.routes[p].gateway).value.id in GatewayIds(t, t.routes.Keys);
    }
  }

  lemma SkipIdsAreRelated(t: Tables, which: Option<nat>, id: nat)
    requires which.Some? ==> id == which.value
    ensures id in SkipIds(t, which) <==> Related(t, id)
  {
    if Related(t, id) {
      var p :| p in t.routes && OwnedBy(t.addrs, t.routes[p].gateway, {id});
    }
  }

  predicate AddressSelected(vid: nat, which: Option<nat>, skip: set<nat>, st: FlowStats) {
    var id := CookieToAddressId(st.cookie);
    && CookieToVid(st.cookie) == vid
    && id !in skip
    && (if which.None? then 0 < id <= 0xffff else id == which.value)
  }

  predicate RouteSelected(vid: nat, which: Option<nat>, st: FlowStats) {
    var id := CookieToRouteId(st.cookie);
    && CookieToVid(st.cookie) == vid
    && (if which.None? then id != 0 else id == which.value)
  }

  /** The entries `_delete_address_data` puts on its delete list. */
  function FilterAddresses(vid: nat, which: Option<nat>, skip: set<nat>, s: seq<FlowStats>): seq<FlowStats> {
    if s == [] then []
    else
      var st := s[|s| - 1];
      FilterAddresses(vid, which, skip, s[..|s| - 1])
      + if AddressSelected(vid, which, skip, st) then [st] else []
  }

  lemma {:induction false} FilterAddressesSound(vid: nat, which: Option<nat>, skip: set<nat>, s: seq<FlowStats>)
    ensures forall st ::
      st in FilterAddresses(vid, which, skip, s) <==> st in s && AddressSelected(vid, which, skip, st)
  {
    if s != [] {
      FilterAddressesSound(vid, which, skip, s[..|s| - 1]);
      assert s == s[..|s| - 1] + [s[|s| - 1]];
    }
  }

  /** The entries `_delete_routing_data` puts on its delete list. */
  function SelectRoutes(vid: nat, which: Option<nat>, s: seq<FlowStats>): seq<FlowStats> {
    if s == [] then []
    else
      var st := s[|s| - 1];
      SelectRoutes(vid, which, s[..|s| - 1]) + if RouteSelected(vid, which, st) then [st] else []
  }

  lemma {:induction false} SelectRoutesSound(vid: nat, which: Option<nat>, s: seq<FlowStats>)
    ensures forall st :: st in SelectRoutes(vid, which, s) <==> st in s && RouteSelected(vid, which, st)
  {
    if s != [] {
      SelectRoutesSound(vid, which, s[..|s| - 1]);
      assert s == s[..|s| - 1] + [s[|s| - 1]];
    }
  }

  /** The list keeps the order of the report, and holds each reported entry at most once. */
  lemma {:induction false} AddressListKeepsOrder(vid: nat, which: Option<nat>, skip: set<nat>, a: seq<FlowStats>,
                                                 b: seq<FlowStats>)
    ensures FilterAddresses(vid, which, skip, a + b)
         == FilterAddresses(vid, which, skip, a) + FilterAddresses(vid, which, skip, b)
    ensures |FilterAddresses(vid, which, skip, b)| <= |b|
  {
    if b == [] {
      assert a + b == a;
    } else {
      var front, last := b[..|b| - 1], b[|b| - 1];
      AddressListKeepsOrder(vid, which, skip, a, front);
      InitOfConcat(a, b);
      var more := if AddressSelected(vid, which, skip, last) then [last] else [];
      ConcatAssoc(FilterAddresses(vid, which, skip, a), FilterAddresses(vid, which, skip, front), more);
    }
  }

  lemma {:induction false} RouteListKeepsOrder(vid: nat, which: Option<nat>, a: seq<FlowStats>, b: seq<FlowStats>)
    ensures SelectRoutes(vid, which, a + b) == SelectRoutes(vid, which, a) + SelectRoutes(vid, which, b)
    ensures |SelectRoutes(vid, which, b)| <= |b|
  {
    if b == [] {
      assert a + b == a;
    } else {
      var front, last := b[..|b| - 1], b[|b| - 1];
      RouteListKeepsOrder(vid, which, a, front);
      InitOfConcat(a, b);
      var more := if RouteSelected(vid, which, last) then [last] else [];
      ConcatAssoc(SelectRoutes(vid, which, a), SelectRoutes(vid, which, front), more);
    }
  }

  lemma InitOfConcat(a: seq<FlowStats>, b: seq<FlowStats>)
    requires b != []
    ensures (a + b)[..|a + b| - 1] == a + b[..|b| - 1] && (a + b)[|a + b| - 1] == b[|b| - 1]
  {
  }

  lemma ConcatAssoc<T>(a: seq<T>, b: seq<T>, c: seq<T>)
    ensures (a + b) + c == a + (b + c)
  {
  }

  lemma ListedCookie(vid: nat, which: Option<nat>, skip: set<nat>, dump: seq<FlowStats>, st: FlowStats)
    requires st in FilterAddresses(vid, which, skip, dump)
    ensures st.cookie == AddressCookie(vid, CookieToAddressId(st.cookie))
  {
    FilterAddressesSound(vid, which, skip, dump);
  }

  /** The ids of the addresses that are deleted, one for each listed entry. */
  function AddressStatIds(stats: seq<FlowStats>): seq<nat> {
    if stats == [] then []
    else AddressStatIds(stats[..|stats| - 1]) + [CookieToAddressId(stats[|stats| - 1].cookie)]
  }

  lemma {:induction false} AddressStatIdsElements(stats: seq<FlowStats>, id: nat)
    ensures id in AddressStatIds(stats) <==> exists st :: st in stats && CookieToAddressId(st.cookie) == id
  {
    if stats != [] {
      var n := |stats| - 1;
      AddressStatIdsElements(stats[..n], id);
      assert stats == stats[..n] + [stats[n]];
      assert stats[n] in stats;
      if st :| st in stats && CookieToAddressId(st.cookie) == id {
        assert st in stats[..n] || st == stats[n];
      }
      if st :| st in stats[..n] && CookieToAddressId(st.cookie) == id {
        assert st in stats;
      }
    }
  }

  // ---------------------------------------------------------------- events

  /**
   What a handler does without a pause: `SetAddress` and `SetRoute` are `set_data`, `Arp` is an ARP
   packet from `ip`, and the deletions are the second halves of `delete_data`, from the moment the
   switch has reported its entries. `skip` was computed before the wait for the report.
   */
  datatype Event =
    | SetAddress(gw: Ip, len: PrefixLen)
    | SetRoute(d: Destination, gateway: Ip)
    | DeleteAddress(which: Option<nat>, skip: set<nat>, dump: seq<FlowStats>)
    | DeleteRoute(which: Option<nat>, dump: seq<FlowStats>)
    | Arp(ip: Ip, hop: Hop)

  ghost predicate RouteAccepted(t: Tables, d: Destination, gateway: Ip) {
    && GatewayValid(t.addrs, gateway)
    && !((d.DefaultRoute? || d.canonical) && DestinationNet(d) in t.routes)
  }

  /** The ids whose entries the handler finds in the report and deletes. */
  function DeletedIds(vid: nat, which: Option<nat>, skip: set<nat>, dump: seq<FlowStats>): seq<nat> {
    AddressStatIds(FilterAddresses(vid, which, skip, dump))
  }

  ghost function Next(t: Tables, vid: nat, e: Event): Tables {
    match e
    case SetAddress(gw, len) => if NoOverlap(t.addrs, gw, len) then WithAddress(t, gw, len) else t
    case SetRoute(d, gateway) =>
      if RouteAccepted(t, d, gateway) then WithRoute(t, d.DefaultRoute?, DestinationNet(d), gateway) else t
    case DeleteAddress(which, skip, dump) => WithoutAddresses(t, Elements(DeletedIds(vid, which, skip, dump)))
    case DeleteRoute(which, dump) => WithoutRoutes(t, RouteStatIds(SelectRoutes(vid, which, dump)))
    case Arp(ip, hop) => Learn(t, ip, hop)
  }

  /** `order` lists the routes an ARP packet from gateway `ip` refreshes, in any order. */
  ghost predicate RefreshOrder(t: Tables, ip: Ip, hop: Hop, order: seq<Prefix>) {
    forall p :: p in order <==> Refreshes(t, p, ip, hop.mac)
  }

  ghost predicate SendsRefreshed(t: Tables, vid: nat, ip: Ip, hop: Hop, mods: seq<FlowMod>) {
    exists order :: RefreshOrder(t, ip, hop, order) && mods == GatewayMods(t, vid, order, hop)
  }

  /** `mods` is what the handler may send to the switch. */
  ghost predicate Emits(t: Tables, vid: nat, e: Event, mods: seq<FlowMod>) {
    match e
    case SetAddress(gw, len) =>
      mods == if NoOverlap(t.addrs, gw, len)
              then AddressMods(vid, Address(t.nextAddr, NetOf(gw, len), gw)) else []
    case SetRoute(d, gateway) =>
      mods == if RouteAccepted(t, d, gateway)
              then RouteMods(vid, Route(t.nextRoute, d.DefaultRoute?, DestinationNet(d), gateway, None))
              else []
    case DeleteAddress(which, skip, dump) => mods == AddressDeletes(vid, DeletedIds(vid, which, skip, dump))
    case DeleteRoute(which, dump) => mods == RouteStatsMods(vid, SelectRoutes(vid, which, dump))
    case Arp(ip, hop) =>
      if AddressOf(t.addrs, ip).None? then mods == []
      else if IsGateway(t, ip) then SendsRefreshed(t, vid, ip, hop, mods)
      else mods == HostMods(vid, AddressOf(t.addrs, ip).value.id, ip, hop)
  }

  predicate AdmissibleId(which: Option<nat>) {
    which.Some? ==> IdFits(which.value)
  }

  /** Ids that fit their half of the cookie, and no spelled-out destination of length 0. */
  predicate Admissible(t: Tables, e: Event) {
    match e
    case SetAddress(_, _) => t.nextAddr <= 0xffff
    case SetRoute(d, _) => t.nextRoute <= 0xffff && (d.Network? ==> d.len >= 1)
    case DeleteAddress(which, _, _) => AdmissibleId(which)
    case DeleteRoute(which, _) => AdmissibleId(which)
    case Arp(_, _) => true
  }

  /** No deleted address is a gateway's, and no newer default route is overwritten. */
  ghost predicate Safe(t: Tables, vid: nat, e: Event) {
    match e
    case DeleteAddress(which, skip, dump) => forall id :: id in DeletedIds(vid, which, skip, dump) ==> !Related(t, id)
    case DeleteRoute(which, dump) => !OverwritesDefault(t, vid, SelectRoutes(vid, which, dump))
    case _ => true
  }

  /** The route entries reported to a deletion are, or once were, those of routes. */
  ghost predicate Reported(t: Tables, vid: nat, e: Event) {
    e.DeleteRoute? ==> forall st :: st in e.dump ==> StatOk(t, vid, st)
  }

  // ---------------------------------------------------------------- what one event keeps

  lemma InitialAgrees(vid: nat)
    ensures Valid(EMPTY_TABLES)
    ensures Agrees(EMPTY_TABLES, vid, map[DefaultKey(vid) := DropFlow(vid)])
  {
    assert IsRouteKey(vid, DefaultKey(vid));
  }

  lemma DeletedIdsSound(vid: nat, which: Option<nat>, skip: set<nat>, dump: seq<FlowStats>, id: nat)
    requires id in DeletedIds(vid, which, skip, dump)
    ensures id !in skip && (if which.Some? then id == which.value else IdFits(id))
  {
    AddressStatIdsElements(FilterAddresses(vid, which, skip, dump), id);
    FilterAddressesSound(vid, which, skip, dump);
  }

  lemma DeleteAddressStepKeeps(t: Tables, vid: nat, which: Option<nat>, skip: set<nat>, dump: seq<FlowStats>,
                               table: FlowTable)
    requires Valid(t) && Agrees(t, vid, table) && AdmissibleId(which)
    requires Safe(t, vid, DeleteAddress(which, skip, dump))
    ensures var ids := DeletedIds(vid, which, skip, dump);
      var t' := WithoutAddresses(t, Elements(ids));
      Valid(t') && Agrees(t', vid, ApplyMods(table, AddressDeletes(vid, ids)))
  {
    var ids := DeletedIds(vid, which, skip, dump);
    forall id | id in ids ensures IdFits(id) && !Related(t, id) {
      DeletedIdsSound(vid, which, skip, dump, id);
    }
    DeleteAddressesKeep(t, vid, ids, table);
  }

  lemma SelectedRouteStats(t: Tables, vid: nat, which: Option<nat>, dump: seq<FlowStats>)
    requires Valid(t) && AdmissibleId(which) && Reported(t, vid, DeleteRoute(which, dump))
    ensures forall st :: st in SelectRoutes(vid, which, dump) ==> IsRouteStat(t, vid, st)
  {
    SelectRoutesSound(vid, which, dump);
    forall st | st in SelectRoutes(vid, which, dump)
      ensures IsRouteStat(t, vid, st)
    {
      assert RouteSelected(vid, which, st) && StatOk(t, vid, st);
    }
  }

  /** A route deletion keeps the agreement if and only if it overwrites no default route that stays. */
  lemma DeleteRouteStepExact(t: Tables, vid: nat, which: Option<nat>, dump: seq<FlowStats>, table: FlowTable)
    requires Valid(t) && Agrees(t, vid, table) && AdmissibleId(which)
    requires Reported(t, vid, DeleteRoute(which, dump))
    ensures var stats := SelectRoutes(vid, which, dump);
      var t' := WithoutRoutes(t, RouteStatIds(stats));
      && Valid(t')
      && (Agrees(t', vid, ApplyMods(table, RouteStatsMods(vid, stats))) <==> !OverwritesDefault(t, vid, stats))
  {
    SelectedRouteStats(t, vid, which, dump);
    DeleteRoutesKeep(t, vid, SelectRoutes(vid, which, dump), table);
  }

  /** Where `_update_routing_tbl` stands once the routes in `done` have been visited. */
  ghost predicate RefreshedSoFar(t: Tables, vid: nat, ip: Ip, hop: Hop, done: set<Prefix>, order: seq<Prefix>,
                                 now: Tables, isGateway: bool, mods: seq<FlowMod>)
  {
    && (forall p :: p in order <==> p in done && Refreshes(t, p, ip, hop.mac))
    && now == WithHops(t, Elements(order), hop)
    && mods == GatewayMods(t, vid, order, hop)
    && (isGateway <==> GatewaySoFar(t, ip, done))
    && (!isGateway ==> order == [])
  }

  ghost predicate GatewaySoFar(t: Tables, ip: Ip, done: set<Prefix>) {
    exists p :: p in done && p in t.routes && t.routes[p].gateway == ip
  }

  lemma RefreshStart(t: Tables, vid: nat, ip: Ip, hop: Hop)
    ensures RefreshedSoFar(t, vid, ip, hop, {}, [], t, false, [])
  {
    WithHopsCompose(t, {}, DEFAULT_NET, hop);
    assert Elements<Prefix>([]) == {};
  }

  lemma RefreshStep(t: Tables, vid: nat, ip: Ip, hop: Hop, done: set<Prefix>, order: seq<Prefix>,
                    now: Tables, isGateway: bool, mods: seq<FlowMod>, p: Prefix)
    requires RefreshedSoFar(t, vid, ip, hop, done, order, now, isGateway, mods)
    requires p in t.routes && p !in done
    ensures p in now.routes && now.routes[p] == t.routes[p]
    ensures var isGateway' := isGateway || t.routes[p].gateway == ip;
      if Refreshes(t, p, ip, hop.mac)
      then RefreshedSoFar(t, vid, ip, hop, done + {p}, order + [p], WithHops(now, {p}, hop), isGateway',
                          mods + RouteMods(vid, t.routes[p].(hop := Some(hop))))
      else RefreshedSoFar(t, vid, ip, hop, done + {p}, order, now, isGateway', mods)
  {
    GatewaySoFarAdd(t, ip, done, p);
    if Refreshes(t, p, ip, hop.mac) {
      GatewayModsAppend(t, vid, order, p, hop);
    }
  }

  /** A turn of the loop, as `VisitRoute` leaves it. */
  lemma RefreshTurn(t: Tables, vid: nat, ip: Ip, hop: Hop, done: set<Prefix>, order: seq<Prefix>,
                    now: Tables, isGateway: bool, mods: seq<FlowMod>, p: Prefix, now': Tables, sent: seq<FlowMod>)
    requires RefreshedSoFar(t, vid, ip, hop, done, order, now, isGateway, mods)
    requires p in t.routes && p !in done && p in now.routes
    requires now' == if Refreshes(now, p, ip, hop.mac) then WithHops(now, {p}, hop) else now
    requires sent == if Refreshes(now, p, ip, hop.mac) then RouteMods(vid, now.routes[p].(hop := Some(hop))) else []
    ensures RefreshedSoFar(t, vid, ip, hop, done + {p}, if Refreshes(t, p, ip, hop.mac) then order + [p] else order,
                           now', isGateway || now.routes[p].gateway == ip, mods + sent)
  {
    RefreshStep(t, vid, ip, hop, done, order, now, isGateway, mods, p);
    assert mods + [] == mods;
  }

  lemma GatewaySoFarAdd(t: Tables, ip: Ip, done: set<Prefix>, p: Prefix)
    requires p in t.routes
    ensures GatewaySoFar(t, ip, done + {p}) <==> GatewaySoFar(t, ip, done) || t.routes[p].gateway == ip
  {
    assert p in done + {p};
  }

  lemma GatewayModsAppend(t: Tables, vid: nat, order: seq<Prefix>, p: Prefix, hop: Hop)
    requires p in t.routes && forall q :: q in order ==> q in t.routes
    ensures GatewayMods(t, vid, order + [p], hop)
         == GatewayMods(t, vid, order, hop) + RouteMods(vid, t.routes[p].(hop := Some(hop)))
    ensures WithHops(t, Elements(order + [p]), hop) == WithHops(WithHops(t, Elements(order), hop), {p}, hop)
  {
    assert (order + [p])[..|order|] == order;
    ElementsInit(order + [p]);
    WithHopsCompose(t, Elements(order), p, hop);
  }

  lemma RefreshEnd(t: Tables, vid: nat, ip: Ip, hop: Hop, order: seq<Prefix>,
                   now: Tables, isGateway: bool, mods: seq<FlowMod>)
    requires RefreshedSoFar(t, vid, ip, hop, t.routes.Keys, order, now, isGateway, mods)
    ensures now == WithGateway(t, ip, hop) && (isGateway <==> IsGateway(t, ip))
    ensures SendsRefreshed(t, vid, ip, hop, mods)
    ensures Refreshed(t.routes, now.routes, ip, hop) && ForwardsChanged(vid, t.routes, ip, hop, mods)
    ensures !isGateway ==> now == t && mods == []
  {
    GatewayRefreshed(t, ip, hop);
    RefreshForwards(t, vid, ip, hop, order);
    RefreshOrderElements(t, ip, hop, order);
    if order == [] {
      assert Elements(order) == {};
      WithHopsCompose(t, {}, DEFAULT_NET, hop);
    }
  }

  lemma RefreshOrderElements(t: Tables, ip: Ip, hop: Hop, order: seq<Prefix>)
    requires RefreshOrder(t, ip, hop, order)
    ensures WithHops(t, Elements(order), hop) == WithGateway(t, ip, hop)
  {
    assert Elements(order) == set p | p in t.routes && Refreshes(t, p, ip, hop.mac);
  }

  /**
   What an ARP packet from `ip` does to the routes: those through `ip` get its MAC, and all that had it
   or go elsewhere are as they were.
   */
  ghost predicate Refreshed(before: map<Prefix, Route>, after: map<Prefix, Route>, ip: Ip, hop: Hop) {
    && after.Keys == before.Keys
    && forall p :: p in before ==>
         && after[p] == before[p].(hop := after[p].hop)
         && (after[p].hop == before[p].hop || after[p].hop == Some(hop))
         && (before[p].gateway == ip ==> after[p].hop.Some? && after[p].hop.value.mac == hop.mac)
         && (before[p].gateway != ip ==> after[p].hop == before[p].hop)
         && (before[p].hop.Some? && before[p].hop.value.mac == hop.mac ==> after[p].hop == before[p].hop)
  }

  /** The entry of a route as a handler sends it that forwards through `hop`. */
  function ForwardEntry(vid: nat, r: Route, hop: Hop): FlowMod {
    Add(RouteKey(vid, r), Flow(RouteCookie(vid, r.id), 0, Forward(hop)))
  }

  ghost predicate TakesHop(before: map<Prefix, Route>, p: Prefix, ip: Ip, mac: Mac) {
    p in before && before[p].gateway == ip && forall h :: before[p].hop == Some(h) ==> h.mac != mac
  }

  /** Exactly the routes whose MAC changes are sent, each with an entry that forwards through the hop. */
  ghost predicate ForwardsChanged(vid: nat, before: map<Prefix, Route>, ip: Ip, hop: Hop, mods: seq<FlowMod>) {
    && (forall p :: TakesHop(before, p, ip, hop.mac) ==> ForwardEntry(vid, before[p], hop) in mods)
    && (forall m :: m in mods ==>
          exists p :: TakesHop(before, p, ip, hop.mac) && m == ForwardEntry(vid, before[p], hop))
  }

  lemma GatewayRefreshed(t: Tables, ip: Ip, hop: Hop)
    ensures Refreshed(t.routes, WithGateway(t, ip, hop).routes, ip, hop)
    ensures WithGateway(t, ip, hop) == t.(routes := WithGateway(t, ip, hop).routes)
  {
  }

  lemma {:induction false} GatewayModsMembers(t: Tables, vid: nat, order: seq<Prefix>, hop: Hop, m: FlowMod)
    requires forall p :: p in order ==> p in t.routes
    ensures m in GatewayMods(t, vid, order, hop)
       <==> exists p :: p in order && m == ForwardEntry(vid, t.routes[p], hop)
  {
    if order != [] {
      var rest, last := order[..|order| - 1], order[|order| - 1];
      GatewayModsMembers(t, vid, rest, hop, m);
      assert order == rest + [last];
      assert RouteMods(vid, t.routes[last].(hop := Some(hop))) == [ForwardEntry(vid, t.routes[last], hop)];
    }
  }

  lemma RefreshForwards(t: Tables, vid: nat, ip: Ip, hop: Hop, order: seq<Prefix>)
    requires RefreshOrder(t, ip, hop, order)
    ensures ForwardsChanged(vid, t.routes, ip, hop, GatewayMods(t, vid, order, hop))
  {
    var mods := GatewayMods(t, vid, order, hop);
    forall p | TakesHop(t.routes, p, ip, hop.mac) ensures ForwardEntry(vid, t.routes[p], hop) in mods {
      assert p in order;
      GatewayModsMembers(t, vid, order, hop, ForwardEntry(vid, t.routes[p], hop));
    }
    forall m | m in mods
      ensures exists p :: TakesHop(t.routes, p, ip, hop.mac) && m == ForwardEntry(vid, t.routes[p], hop)
    {
      GatewayModsMembers(t, vid, order, hop, m);
      var p :| p in order && m == ForwardEntry(vid, t.routes[p], hop);
      assert TakesHop(t.routes, p, ip, hop.mac);
    }
  }

  lemma ArpStepKeeps(t: Tables, vid: nat, ip: Ip, hop: Hop, mods: seq<FlowMod>, table: FlowTable)
    requires Valid(t) && Agrees(t, vid, table) && Emits(t, vid, Arp(ip, hop), mods)
    ensures Valid(Learn(t, ip, hop)) && Agrees(Learn(t, ip, hop), vid, ApplyMods(table, mods))
  {
    if AddressOf(t.addrs, ip).Some? {
      if IsGateway(t, ip) {
        var order :| RefreshOrder(t, ip, hop, order) && mods == GatewayMods(t, vid, order, hop);
        LearnGatewaysKeeps(t, vid, order, hop, table);
        RefreshOrderElements(t, ip, hop, order);
      } else {
        LearnHostKeeps(t, vid, ip, hop, table);
      }
    }
  }

  lemma SetRouteStepKeeps(t: Tables, vid: nat, d: Destination, gateway: Ip, table: FlowTable)
    requires Valid(t) && Agrees(t, vid, table) && t.nextRoute <= 0xffff && (d.Network? ==> d.len >= 1)
    requires RouteAccepted(t, d, gateway)
    ensures var net := DestinationNet(d); var t' := WithRoute(t, d.DefaultRoute?, net, gateway);
      Valid(t') && Agrees(t', vid, ApplyMods(table, RouteMods(vid, t'.routes[net])))
  {
    ProperWhenAdmissible(d);
    AddRouteKeeps(t, vid, d.DefaultRoute?, DestinationNet(d), gateway, table);
  }

  /** Every handler that acts on no outdated report keeps tables valid and switch in agreement. */
  lemma StepKeeps(t: Tables, vid: nat, e: Event, mods: seq<FlowMod>, table: FlowTable)
    requires Valid(t) && Agrees(t, vid, table)
    requires Admissible(t, e) && Emits(t, vid, e, mods) && Reported(t, vid, e) && Safe(t, vid, e)
    ensures Valid(Next(t, vid, e))
    ensures Agrees(Next(t, vid, e), vid, ApplyMods(table, mods))
  {
    match e
    case SetAddress(gw, len) =>
      if NoOverlap(t.addrs, gw, len) {
        AddAddressValid(t, gw, len);
        AddAddressAgrees(t, vid, gw, len, table);
      }
    case SetRoute(d, gateway) =>
      if RouteAccepted(t, d, gateway) {
        SetRouteStepKeeps(t, vid, d, gateway, table);
      }
    case DeleteAddress(which, skip, dump) => DeleteAddressStepKeeps(t, vid, which, skip, dump, table);
    case DeleteRoute(which, dump) => DeleteRouteStepExact(t, vid, which, dump, table);
    case Arp(ip, hop) => ArpStepKeeps(t, vid, ip, hop, mods, table);
  }

  /** The new tables are valid whatever is on the switch. */
  lemma NextValid(t: Tables, vid: nat, e: Event)
    requires Valid(t) && Admissible(t, e) && (e.DeleteAddress? ==> Safe(t, vid, e))
    ensures Valid(Next(t, vid, e))
  {
    match e
    case SetAddress(gw, len) => SetAddressStepValid(t, vid, gw, len);
    case SetRoute(d, gateway) => SetRouteStepValid(t, d, gateway);
    case DeleteAddress(which, skip, dump) => DeleteAddressesValid(t, Elements(DeletedIds(vid, which, skip, dump)));
    case DeleteRoute(which, dump) => DeleteRoutesValid(t, RouteStatIds(SelectRoutes(vid, which, dump)));
    case Arp(ip, hop) => LearnValid(t, ip, hop);
  }

  /** Every gateway lies in a registered network and is not its router address. */
  ghost predicate GatewaysRegistered(t: Tables) {
    forall p :: p in t.routes ==> GatewayValid(t.addrs, t.routes[p].gateway)
  }

  /** Deleting an address that a gateway lies in leaves that gateway without one. */
  lemma UnsafeDeleteStrandsGateway(t: Tables, vid: nat, which: Option<nat>, skip: set<nat>, dump: seq<FlowStats>)
    requires NetsDisjoint(t.addrs) && !Safe(t, vid, DeleteAddress(which, skip, dump))
    ensures !GatewaysRegistered(Next(t, vid, DeleteAddress(which, skip, dump)))
  {
    var id :| id in DeletedIds(vid, which, skip, dump) && Related(t, id);
    RelatedStranded(t, Elements(DeletedIds(vid, which, skip, dump)), id);
  }

  lemma RelatedStranded(t: Tables, ids: set<nat>, id: nat)
    requires NetsDisjoint(t.addrs) && id in ids && Related(t, id)
    ensures !GatewaysRegistered(WithoutAddresses(t, ids))
  {
    var p :| p in t.routes && OwnedBy(t.addrs, t.routes[p].gateway, {id});
    AddressOfAfterDelete(t.addrs, ids, t.routes[p].gateway);
    assert !GatewayValid(AddressesWithout(t.addrs, ids), t.routes[p].gateway);
  }

  lemma SetAddressStepValid(t: Tables, vid: nat, gw: Ip, len: PrefixLen)
    requires Valid(t) && Admissible(t, SetAddress(gw, len))
    ensures Valid(Next(t, vid, SetAddress(gw, len)))
  {
    if NoOverlap(t.addrs, gw, len) {
      AddAddressValid(t, gw, len);
      assert Next(t, vid, SetAddress(gw, len)) == WithAddress(t, gw, len);
    } else {
      assert Next(t, vid, SetAddress(gw, len)) == t;
    }
  }

  lemma LearnValid(t: Tables, ip: Ip, hop: Hop)
    requires Valid(t)
    ensures Valid(Learn(t, ip, hop))
  {
    WithHopsValid(t, (set p | p in t.routes && Refreshes(t, p, ip, hop.mac)), hop);
  }

  lemma SetRouteStepValid(t: Tables, d: Destination, gateway: Ip)
    requires Valid(t) && t.nextRoute <= 0xffff && (d.Network? ==> d.len >= 1)
    ensures RouteAccepted(t, d, gateway) ==> Valid(WithRoute(t, d.DefaultRoute?, DestinationNet(d), gateway))
  {
    ProperWhenAdmissible(d);
    if RouteAccepted(t, d, gateway) {
      AddRouteTablesValid(t, d.DefaultRoute?, DestinationNet(d), gateway);
    }
  }

  lemma ProperWhenAdmissible(d: Destination)
    requires d.Network? ==> d.len >= 1
    ensures ProperDestination(d.DefaultRoute?, DestinationNet(d))
  {
    ApplyMaskEnds(0);
    if d.Network? {
      NetOfCovers(d.host, d.len);
    }
  }

  lemma WithHopsValid(t: Tables, nets: set<Prefix>, hop: Hop)
    requires Valid(t)
    ensures Valid(WithHops(t, nets, hop))
  {
    HopsValid(t.routes, t.nextRoute, nets, hop);
  }

  lemma HopsValid(routes: map<Prefix, Route>, nextRoute: nat, nets: set<Prefix>, hop: Hop)
    requires RoutesValid(routes, nextRoute)
    ensures RoutesValid(map p | p in routes :: if p in nets then routes[p].(hop := Some(hop)) else routes[p],
                        nextRoute)
  {
  }

  /**
   What a handler owes: the tables become what the event calls for, the modifications are those the
   event calls for and, as long as ids and destinations are admissible and no report is out of date,
   every switch that agreed with the tables still does.
   */
  ghost predicate Handled(before: Tables, after: Tables, vid: nat, e: Event, mods: seq<FlowMod>) {
    && after == Next(before, vid, e)
    && Emits(before, vid, e, mods)
    && (Admissible(before, e) && Safe(before, vid, e) ==>
          && Valid(after)
          && forall table :: Agrees(before, vid, table) && Reported(before, vid, e) ==>
               Agrees(after, vid, ApplyMods(table, mods)))
  }

  lemma HandledByNext(before: Tables, vid: nat, e: Event, mods: seq<FlowMod>)
    requires Valid(before) && Emits(before, vid, e, mods)
    ensures Handled(before, Next(before, vid, e), vid, e, mods)
  {
    if Admissible(before, e) && Safe(before, vid, e) {
      forall table | Agrees(before, vid, table) && Reported(before, vid, e)
        ensures Agrees(Next(before, vid, e), vid, ApplyMods(table, mods))
      {
        StepKeeps(before, vid, e, mods, table);
      }
      NextValid(before, vid, e);
    }
  }
}
