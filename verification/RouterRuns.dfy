/**
 Runs of one VLAN's router and its switch. A deletion asks the switch for its entries and waits for
 the report; a deletion of addresses also pauses at each address that has suspended packets. Other
 handlers run meanwhile.
 */
module RouterRuns {
  import opened Wrappers
  import opened Cidr
  import opened RouterTables
  import opened RouterSteps
  import opened RouterEvents
  import opened RouterPause

  /**
   A deletion that waits for its report: what it is to delete, the ids it must skip as they were
   when it asked, the next route id at that time, and every entry the switch has held since.
   */
  datatype Request = Request(
    forAddress: bool, which: Option<nat>, skip: set<nat>, fromRoute: nat, seen: set<FlowStats>)

  /**
   A deletion of addresses that has its report: the address it pauses at, whose entries are removed
   already, and the ids of the listed entries it has still to go through.
   */
  datatype Deletion = Deletion(r: Request, at: Option<nat>, rest: seq<nat>)

  /** `strays` records the host entries on the switch whose address is gone. */
  datatype Config = Config(
    t: Tables, table: FlowTable, pending: map<nat, Request>, active: map<nat, Deletion>, strays: map<Ip, Stray>)

  /**
   A handler without a wait; an idle host entry that expires; a deletion's question and the report.
   The loop over the delete list goes turn by turn: `Strike` removes the entries of the next listed
   id, and stops there if the address is registered; `Forget` removes that address; `Abort` is the
   ValueError of a packet list that changed during the pause; `Finish` is the end of the list.
   */
  datatype Step =
    | Handle(e: Event, mods: seq<FlowMod>)
    | HostIdle(ip: Ip)
    | Ask(rid: nat, forAddress: bool, which: Option<nat>)
    | Answer(rid: nat, dump: seq<FlowStats>)
    | Strike(rid: nat)
    | Forget(rid: nat)
    | Abort(rid: nat)
    | Finish(rid: nat)

  function Stats(table: FlowTable): set<FlowStats> {
    set k | k in table :: FlowStats(k.priority, table[k].cookie)
  }

  /**
   What the switch may report: entries it held at some time since it was asked, those of other VLANs,
   and the switch-wide ones. The report may be incomplete: the reply can time out.
   */
  predicate FromSeen(seen: set<FlowStats>, vid: nat, dump: seq<FlowStats>) {
    forall st :: st in dump ==>
      st in seen || CookieToVid(st.cookie) != vid || CookieToAddressId(st.cookie) == 0
  }

  /** No deletion is between two turns: other handlers run only while each one pauses at an address. */
  predicate Idle(c: Config) {
    forall rid :: rid in c.active ==> c.active[rid].at.Some?
  }

  predicate InHandler(e: Event) {
    e.SetAddress? || e.SetRoute? || e.Arp?
  }

  ghost predicate Enabled(c: Config, vid: nat, s: Step) {
    match s
    case Handle(e, mods) => Idle(c) && InHandler(e) && Admissible(c.t, e) && Emits(c.t, vid, e, mods)
    case HostIdle(_) => true
    case Ask(rid, _, which) => Idle(c) && rid !in c.pending && rid !in c.active && AdmissibleId(which)
    case Answer(rid, dump) => Idle(c) && rid in c.pending && FromSeen(c.pending[rid].seen, vid, dump)
    case Strike(rid) => rid in c.active && c.active[rid].at.None? && c.active[rid].rest != []
    case Forget(rid) => rid in c.active && Idle(c)
    case Abort(rid) => rid in c.active && Idle(c)
    case Finish(rid) => rid in c.active && c.active[rid].at.None? && c.active[rid].rest == []
  }

  /** Waiting deletions may see what the switch holds now. */
  function Watch(pending: map<nat, Request>, table: FlowTable): map<nat, Request> {
    map rid | rid in pending :: pending[rid].(seen := pending[rid].seen + Stats(table))
  }

  ghost function Advance(c: Config, vid: nat, s: Step): Config
    requires Enabled(c, vid, s)
  {
    match s
    case Handle(e, mods) => AfterHandler(c, Next(c.t, vid, e), ApplyMods(c.table, mods))
    case HostIdle(ip) =>
      c.(t := c.t.(learned := c.t.learned - {ip}), table := c.table - {HostKey(vid, ip)}, strays := c.strays - {ip})
    case Ask(rid, forAddress, which) =>
      var skip := if forAddress then SkipIds(c.t, which) else {};
      c.(pending := c.pending[rid := Request(forAddress, which, skip, c.t.nextRoute, Stats(c.table))])
    case Answer(rid, dump) =>
      var r := c.pending[rid];
      var c' := c.(pending := c.pending - {rid});
      if r.forAddress then
        c'.(active := c.active[rid := Deletion(r, None, DeletedIds(vid, r.which, r.skip, dump))])
      else
        AfterHandler(c', Next(c.t, vid, DeleteRoute(r.which, dump)),
                     ApplyMods(c.table, RouteStatsMods(vid, SelectRoutes(vid, r.which, dump))))
    case Strike(rid) =>
      var d := c.active[rid];
      var id := d.rest[0];
      c.(t := Struck(c.t, id), table := ApplyMod(c.table, Delete(AddressCookie(vid, id))),
         active := c.active[rid := d.(at := if HasId(c.t.addrs, id) then Some(id) else None, rest := d.rest[1..])],
         strays := StraysWithout(c.strays, id))
    case Forget(rid) =>
      var d := c.active[rid];
      c.(t := WithoutAddresses(c.t, {d.at.value}), active := c.active[rid := d.(at := None)],
         strays := NewStrays(c.t, c.strays, d.at.value))
    case Abort(rid) => c.(active := c.active - {rid})
    case Finish(rid) => c.(active := c.active - {rid})
  }

  function AfterHandler(c: Config, t: Tables, table: FlowTable): Config {
    c.(t := t, table := table, pending := Watch(c.pending, table), strays := c.strays - t.learned.Keys)
  }

  ghost function Start(vid: nat): Config {
    Config(EMPTY_TABLES, map[DefaultKey(vid) := DropFlow(vid)], map[], map[], map[])
  }

  ghost predicate IsRun(vid: nat, run: seq<Step>)
    decreases |run|, 0
  {
    run == [] ||
    (IsRun(vid, run[..|run| - 1]) && Enabled(After(vid, run[..|run| - 1]), vid, run[|run| - 1]))
  }

  ghost function After(vid: nat, run: seq<Step>): Config
    requires IsRun(vid, run)
    decreases |run|, 1
  {
    if run == [] then Start(vid) else Advance(After(vid, run[..|run| - 1]), vid, run[|run| - 1])
  }

  // ---------------------------------------------------------------- tables and switch in every state

  /** The addresses some deletion pauses at. */
  function Paused(active: map<nat, Deletion>): set<nat> {
    set rid | rid in active && active[rid].at.Some? :: active[rid].at.value
  }

  /** Some running deletion has still to remove the entries with this id's cookie. */
  predicate Listed(active: map<nat, Deletion>, id: nat) {
    exists rid :: rid in active && id in active[rid].rest
  }

  predicate StraysListed(active: map<nat, Deletion>, strays: map<Ip, Stray>) {
    forall ip :: ip in strays ==> Listed(active, strays[ip].id)
  }

  /**
   The tables are valid, and the switch holds what they call for, except that the entries of the
   addresses a deletion pauses at are gone already, and that the entries a running deletion has
   still to remove may be there.
   */
  ghost predicate Consistent(c: Config, vid: nat) {
    && Valid(c.t)
    && PausedAgrees(c.t, vid, Paused(c.active), c.strays, c.table)
    && StraysListed(c.active, c.strays)
  }

  /** No deletion is between its report and its end. */
  predicate Settled(c: Config) {
    c.active == map[]
  }

  ghost predicate Good(c: Config, vid: nat) {
    Valid(c.t) && Agrees(c.t, vid, c.table)
  }

  /** Once no deletion is under way, consistent means in agreement. */
  lemma SettledIsGood(c: Config, vid: nat)
    requires Consistent(c, vid) && Settled(c)
    ensures Good(c, vid)
  {
    assert Paused(c.active) == {};
    NoneListed(c.active, c.strays);
    NothingPaused(c.t, vid, c.table);
  }

  lemma NoneListed(active: map<nat, Deletion>, strays: map<Ip, Stray>)
    requires StraysListed(active, strays) && active == map[]
    ensures strays == map[]
  {
    assert forall id :: !Listed(active, id);
    assert strays.Keys == {};
  }

  // ---------------------------------------------------------------- when a step is safe

  /** No route added since the question goes through the address. */
  ghost predicate NoNewRouteThrough(t: Tables, r: Request, id: nat) {
    forall p :: p in t.routes && t.routes[p].id >= r.fromRoute ==> !OwnedBy(t.addrs, t.routes[p].gateway, {id})
  }

  /** No entry of an earlier default route is acted on while another default route is registered. */
  predicate NoStaleDefault(t: Tables, vid: nat, r: Request, dump: seq<FlowStats>) {
    !OverwritesDefault(t, vid, SelectRoutes(vid, r.which, dump))
  }

  /** When an address goes, no route has come to depend on it since the deletion asked. */
  ghost predicate SafeForGateways(c: Config, s: Step) {
    s.Forget? && s.rid in c.active && c.active[s.rid].at.Some? && HasId(c.t.addrs, c.active[s.rid].at.value) ==>
      NoNewRouteThrough(c.t, c.active[s.rid].r, c.active[s.rid].at.value)
  }

  ghost predicate SafeForSwitch(c: Config, vid: nat, s: Step) {
    match s
    case Answer(rid, dump) =>
      rid in c.pending && !c.pending[rid].forAddress ==> NoStaleDefault(c.t, vid, c.pending[rid], dump)
    case Forget(rid) =>
      // hosts learned in the pause are still to be removed by some running deletion
      rid in c.active && c.active[rid].at.Some? ==>
        HostsOf(c.t, c.active[rid].at.value) == {} || Listed(c.active, c.active[rid].at.value)
    case Abort(rid) =>
      // another deletion takes care of the address and of the entries that were still listed
      rid in c.active && c.active[rid].at.Some? ==>
        && (HasId(c.t.addrs, c.active[rid].at.value) ==> c.active[rid].at.value in Paused(c.active - {rid}))
        && StraysListed(c.active - {rid}, c.strays)
    case _ => true
  }

  // ---------------------------------------------------------------- what a deletion relies on

  /** Every gateway of a route older than the question is covered by the skip list. */
  ghost predicate SkipOk(t: Tables, r: Request) {
    && AdmissibleId(r.which)
    && r.fromRoute <= t.nextRoute
    && (r.forAddress ==>
          forall p :: p in t.routes && t.routes[p].id < r.fromRoute ==> Covered(t.addrs, r, t.routes[p].gateway))
  }

  ghost predicate Covered(addrs: map<Prefix, Address>, r: Request, gateway: Ip) {
    var a := AddressOf(addrs, gateway);
    a.Some? && (r.which.None? || r.which.value == a.value.id) ==> a.value.id in r.skip
  }

  predicate SeenOk(t: Tables, vid: nat, r: Request) {
    forall st :: st in r.seen ==> StatOk(t, vid, st)
  }

  /** Route ids are never used twice, and a route changes in its hop only. */
  predicate RoutesDescend(t: Tables, t': Tables) {
    && t.nextRoute <= t'.nextRoute
    && forall p :: p in t'.routes && t'.routes[p].id < t.nextRoute ==>
         p in t.routes && t'.routes[p] == t.routes[p].(hop := t'.routes[p].hop)
  }

  /** The older routes' gateways keep their addresses. */
  ghost predicate GatewaysKept(t: Tables, t': Tables) {
    forall p :: p in t'.routes && t'.routes[p].id < t.nextRoute ==>
      AddressOf(t'.addrs, t'.routes[p].gateway) == AddressOf(t.addrs, t'.routes[p].gateway)
  }

  lemma SkipOkAtQuestion(t: Tables, which: Option<nat>, seen: set<FlowStats>)
    requires AdmissibleId(which)
    ensures SkipOk(t, Request(true, which, SkipIds(t, which), t.nextRoute, seen))
  {
    var r := Request(true, which, SkipIds(t, which), t.nextRoute, seen);
    forall p | p in t.routes
      ensures Covered(t.addrs, r, t.routes[p].gateway)
    {
      var a := AddressOf(t.addrs, t.routes[p].gateway);
      if a.Some? && (which.None? || which.value == a.value.id) {
        assert OwnedBy(t.addrs, t.routes[p].gateway, {a.value.id});
        SkipIdsAreRelated(t, which, a.value.id);
      }
    }
  }

  lemma SkipOkKept(t: Tables, t': Tables, r: Request, seen: set<FlowStats>)
    requires SkipOk(t, r) && RoutesDescend(t, t') && GatewaysKept(t, t')
    ensures SkipOk(t', r.(seen := seen))
  {
    forall p | r.forAddress && p in t'.routes && t'.routes[p].id < r.fromRoute
      ensures Covered(t'.addrs, r, t'.routes[p].gateway)
    {
      assert Covered(t.addrs, r, t.routes[p].gateway);
    }
  }

  lemma StatOkKept(t: Tables, t': Tables, vid: nat, st: FlowStats)
    requires StatOk(t, vid, st) && RoutesDescend(t, t')
    ensures StatOk(t', vid, st)
  {
  }

  /** What an agreeing switch holds is what its routes call for. */
  lemma TableStatsOk(t: Tables, vid: nat, table: FlowTable, st: FlowStats)
    requires Valid(t) && Agrees(t, vid, table) && st in Stats(table)
    ensures StatOk(t, vid, st)
  {
    var k :| k in table && st == FlowStats(k.priority, table[k].cookie);
    if IsRouteKey(vid, k) {
      assert Holds(table, k, ExpectedRoute(t.routes, vid, k));
      RouteEntryOk(t, vid, k, st);
    } else {
      assert Holds(table, k, ExpectedAddress(t.addrs, t.learned, vid, k));
      AddressEntryId(t, vid, k);
    }
  }

  lemma RouteEntryOk(t: Tables, vid: nat, k: FlowKey, st: FlowStats)
    requires RoutesValid(t.routes, t.nextRoute) && IsRouteKey(vid, k) && ExpectedRoute(t.routes, vid, k).Some?
    requires st == FlowStats(k.priority, ExpectedRoute(t.routes, vid, k).value.cookie)
    ensures StatOk(t, vid, st)
  {
    var p := if k.m.dst.Some? then k.m.dst.value else DEFAULT_NET;
    ApplyMaskEnds(p.addr);
    CookiePartition(vid, 1, if p in t.routes then t.routes[p].id else 1);
  }

  lemma AddressEntryId(t: Tables, vid: nat, k: FlowKey)
    requires AddrsValid(t.addrs, t.nextAddr) && ExpectedAddress(t.addrs, t.learned, vid, k).Some?
    ensures CookieToRouteId(ExpectedAddress(t.addrs, t.learned, vid, k).value.cookie) == 0
  {
    var p := k.m.dst.value;
    if AddressOf(t.addrs, p.addr).Some? {
      AddressOfCovers(t.addrs, t.nextAddr, p.addr);
      CookiePartition(vid, AddressOf(t.addrs, p.addr).value.id, 1);
    }
    if p in t.addrs {
      CookiePartition(vid, t.addrs[p].id, 1);
    }
  }

  lemma NextDescends(t: Tables, vid: nat, e: Event)
    requires Admissible(t, e)
    ensures RoutesDescend(t, Next(t, vid, e))
  {
    match e
    case SetAddress(gw, len) => assert Next(t, vid, e).routes == t.routes;
    case SetRoute(d, gateway) =>
      if RouteAccepted(t, d, gateway) {
        AddedRouteDescends(t, d.DefaultRoute?, DestinationNet(d), gateway);
      } else {
        assert Next(t, vid, e) == t;
      }
    case DeleteAddress(_, _, _) => assert Next(t, vid, e).routes == t.routes;
    case DeleteRoute(which, dump) => FewerRoutesDescend(t, RouteStatIds(SelectRoutes(vid, which, dump)));
    case Arp(ip, hop) => LearnDescends(t, ip, hop);
  }

  lemma AddedRouteDescends(t: Tables, isDefault: bool, net: Prefix, gateway: Ip)
    requires t.nextRoute <= 0xffff
    ensures RoutesDescend(t, WithRoute(t, isDefault, net, gateway))
  {
  }

  lemma FewerRoutesDescend(t: Tables, ids: set<nat>)
    ensures RoutesDescend(t, WithoutRoutes(t, ids))
  {
  }

  lemma LearnDescends(t: Tables, ip: Ip, hop: Hop)
    ensures RoutesDescend(t, Learn(t, ip, hop))
  {
  }

  lemma NextKeepsGateways(t: Tables, vid: nat, e: Event)
    requires Valid(t) && Admissible(t, e) && GatewaysRegistered(Next(t, vid, e))
    ensures GatewaysKept(t, Next(t, vid, e))
  {
    var t' := Next(t, vid, e);
    forall p | p in t'.routes && t'.routes[p].id < t.nextRoute
      ensures AddressOf(t'.addrs, t'.routes[p].gateway) == AddressOf(t.addrs, t'.routes[p].gateway)
    {
      NextDescends(t, vid, e);
      var g := t'.routes[p].gateway;
      assert GatewayValid(t.addrs, g) && GatewayValid(t'.addrs, g);
      if e.SetAddress? && NoOverlap(t.addrs, e.gw, e.len) {
        AddressOfAfterAddress(t, e.gw, e.len, g);
      } else if e.DeleteAddress? {
        AddressOfAfterDelete(t.addrs, Elements(DeletedIds(vid, e.which, e.skip, e.dump)), g);
      }
    }
  }

  // ---------------------------------------------------------------- invariants

  /** An id that the deletion may have on its list. */
  predicate OnList(r: Request, id: nat) {
    id !in r.skip && IdFits(id) && (r.which.Some? ==> id == r.which.value)
  }

  ghost predicate DeletionOk(t: Tables, d: Deletion) {
    && d.r.forAddress
    && SkipOk(t, d.r)
    && (forall id :: id in d.rest ==> OnList(d.r, id))
    && (d.at.Some? ==> OnList(d.r, d.at.value) && d.at.value < t.nextAddr)
  }

  ghost predicate SkipsOk(c: Config) {
    && (forall rid :: rid in c.pending ==> SkipOk(c.t, c.pending[rid]))
    && (forall rid :: rid in c.active ==> DeletionOk(c.t, c.active[rid]))
  }

  ghost predicate SeensOk(c: Config, vid: nat) {
    forall rid :: rid in c.pending ==> SeenOk(c.t, vid, c.pending[rid])
  }

  ghost predicate Inv(c: Config, vid: nat) {
    Consistent(c, vid) && SkipsOk(c) && SeensOk(c, vid) && StraysOk(c.t, c.strays)
  }

  // ---------------------------------------------------------------- integrity: one step, exactly

  /** An address on the list is safe to remove exactly when no route newer than the question needs it. */
  lemma ForgetIsSafe(t: Tables, r: Request, id: nat)
    requires SkipOk(t, r) && r.forAddress && OnList(r, id)
    ensures !Related(t, id) <==> NoNewRouteThrough(t, r, id)
  {
    if NoNewRouteThrough(t, r, id) {
      forall p | p in t.routes
        ensures !OwnedBy(t.addrs, t.routes[p].gateway, {id})
      {
        assert t.routes[p].id < r.fromRoute ==> Covered(t.addrs, r, t.routes[p].gateway);
      }
    }
  }

  /** The deletions that stay under way rely on the same things as before. */
  predicate DeletionsStay(c: Config, c': Config) {
    && c.t.nextAddr <= c'.t.nextAddr
    && (forall rid :: rid in c'.pending ==>
          rid in c.pending && c'.pending[rid] == c.pending[rid].(seen := c'.pending[rid].seen))
    && (forall rid :: rid in c'.active ==> rid in c.active && DeletionStays(c.active[rid], c'.active[rid]))
  }

  predicate DeletionStays(d: Deletion, d': Deletion) {
    && d'.r == d.r
    && (forall id :: id in d'.rest ==> id in d.rest)
    && (d'.at.Some? ==> d'.at == d.at)
  }

  lemma SkipsKept(c: Config, c': Config)
    requires SkipsOk(c) && RoutesDescend(c.t, c'.t) && GatewaysKept(c.t, c'.t) && DeletionsStay(c, c')
    ensures SkipsOk(c')
  {
    forall rid | rid in c'.pending
      ensures SkipOk(c'.t, c'.pending[rid])
    {
      SkipOkKept(c.t, c'.t, c.pending[rid], c'.pending[rid].seen);
    }
    forall rid | rid in c'.active
      ensures DeletionOk(c'.t, c'.active[rid])
    {
      var d := c.active[rid];
      assert DeletionOk(c.t, d);
      SkipOkKept(c.t, c'.t, d.r, d.r.seen);
    }
  }

  lemma NextAddrGrows(t: Tables, vid: nat, e: Event)
    requires Admissible(t, e)
    ensures t.nextAddr <= Next(t, vid, e).nextAddr
  {
  }

  lemma HandlerIntegrity(c: Config, vid: nat, e: Event, c': Config)
    requires Valid(c.t) && SkipsOk(c) && Admissible(c.t, e) && !e.DeleteAddress?
    requires c'.t == Next(c.t, vid, e) && c'.active == c.active
    requires forall rid :: rid in c'.pending ==>
      rid in c.pending && c'.pending[rid] == c.pending[rid].(seen := c'.pending[rid].seen)
    ensures Valid(c'.t) && SkipsOk(c')
  {
    NextValid(c.t, vid, e);
    NextDescends(c.t, vid, e);
    NextKeepsGateways(c.t, vid, e);
    NextAddrGrows(c.t, vid, e);
    SkipsKept(c, c');
  }

  lemma ForgetIntegrity(c: Config, vid: nat, s: Step)
    requires Valid(c.t) && SkipsOk(c) && Enabled(c, vid, s) && s.Forget?
    ensures var c' := Advance(c, vid, s);
      && (GatewaysRegistered(c'.t) <==> SafeForGateways(c, s))
      && (GatewaysRegistered(c'.t) ==> Valid(c'.t) && SkipsOk(c'))
  {
    var c', d := Advance(c, vid, s), c.active[s.rid];
    var id := d.at.value;
    assert DeletionOk(c.t, d);
    ForgetIsSafe(c.t, d.r, id);
    if Related(c.t, id) {
      RelatedStranded(c.t, {id}, id);
      RelatedIsRegistered(c.t, id);
    } else {
      DeleteAddressesValid(c.t, {id});
      FewerAddressesKept(c.t, id);
      SkipsKept(c, c');
    }
  }

  lemma RelatedIsRegistered(t: Tables, id: nat)
    requires Related(t, id)
    ensures HasId(t.addrs, id)
  {
    var p :| p in t.routes && OwnedBy(t.addrs, t.routes[p].gateway, {id});
    var q :| q in t.addrs && AddressOf(t.addrs, t.routes[p].gateway) == Some(t.addrs[q]);
  }

  lemma FewerAddressesKept(t: Tables, id: nat)
    requires Valid(t) && !Related(t, id)
    ensures RoutesDescend(t, WithoutAddresses(t, {id})) && GatewaysKept(t, WithoutAddresses(t, {id}))
  {
    var t' := WithoutAddresses(t, {id});
    forall p | p in t'.routes
      ensures AddressOf(t'.addrs, t'.routes[p].gateway) == AddressOf(t.addrs, t'.routes[p].gateway)
    {
      AddressOfAfterDelete(t.addrs, {id}, t.routes[p].gateway);
      assert !OwnedBy(t.addrs, t.routes[p].gateway, {id});
    }
  }

  lemma StrikeIntegrity(c: Config, vid: nat, s: Step)
    requires Valid(c.t) && SkipsOk(c) && Enabled(c, vid, s) && s.Strike?
    ensures Valid(Advance(c, vid, s).t) && SkipsOk(Advance(c, vid, s))
  {
    var c', d := Advance(c, vid, s), c.active[s.rid];
    assert DeletionOk(c.t, d);
    assert d.rest[0] in d.rest;
    StruckValid(c.t, d.rest[0]);
    forall rid | rid in c'.pending
      ensures SkipOk(c'.t, c'.pending[rid])
    {
      SkipOkKept(c.t, c'.t, c.pending[rid], c.pending[rid].seen);
    }
    forall rid | rid in c'.active
      ensures DeletionOk(c'.t, c'.active[rid])
    {
      assert DeletionOk(c.t, c.active[rid]);
      SkipOkKept(c.t, c'.t, c.active[rid].r, c.active[rid].r.seen);
    }
  }

  lemma QuestionIntegrity(c: Config, vid: nat, s: Step)
    requires SkipsOk(c) && Enabled(c, vid, s) && s.Ask?
    ensures SkipsOk(Advance(c, vid, s))
  {
    var c' := Advance(c, vid, s);
    SkipOkAtQuestion(c.t, s.which, Stats(c.table));
    forall rid | rid in c'.pending
      ensures SkipOk(c'.t, c'.pending[rid])
    {
      assert rid != s.rid ==> SkipOk(c.t, c.pending[rid]);
    }
  }

  lemma AnswerIntegrity(c: Config, vid: nat, s: Step)
    requires Valid(c.t) && SkipsOk(c) && Enabled(c, vid, s) && s.Answer?
    ensures Valid(Advance(c, vid, s).t) && SkipsOk(Advance(c, vid, s))
  {
    var c', r := Advance(c, vid, s), c.pending[s.rid];
    assert SkipOk(c.t, r);
    if r.forAddress {
      forall id | id in c'.active[s.rid].rest
        ensures OnList(r, id)
      {
        DeletedIdsSound(vid, r.which, r.skip, s.dump, id);
      }
      forall rid | rid in c'.active
        ensures DeletionOk(c'.t, c'.active[rid])
      {
        assert rid != s.rid ==> DeletionOk(c.t, c.active[rid]);
      }
    } else {
      HandlerIntegrity(c, vid, DeleteRoute(r.which, s.dump), c');
    }
  }

  lemma IdleIntegrity(c: Config, vid: nat, s: Step)
    requires Valid(c.t) && SkipsOk(c) && Enabled(c, vid, s) && (s.HostIdle? || s.Abort? || s.Finish?)
    ensures Valid(Advance(c, vid, s).t) && SkipsOk(Advance(c, vid, s))
  {
    SkipsKept(c, Advance(c, vid, s));
  }

  /** One step keeps every gateway registered exactly when it removes no address a newer route needs. */
  lemma IntegrityStep(c: Config, vid: nat, s: Step)
    requires Valid(c.t) && SkipsOk(c) && Enabled(c, vid, s)
    ensures var c' := Advance(c, vid, s);
      && (GatewaysRegistered(c'.t) <==> SafeForGateways(c, s))
      && (GatewaysRegistered(c'.t) ==> Valid(c'.t) && SkipsOk(c'))
  {
    match s
    case Handle(e, _) => HandlerIntegrity(c, vid, e, Advance(c, vid, s));
    case Ask(_, _, _) => QuestionIntegrity(c, vid, s);
    case Answer(_, _) => AnswerIntegrity(c, vid, s);
    case Strike(_) => StrikeIntegrity(c, vid, s);
    case Forget(_) => ForgetIntegrity(c, vid, s);
    case _ => IdleIntegrity(c, vid, s);
  }

  // ---------------------------------------------------------------- the switch: one step, exactly

  /** What a switch holds that a waiting deletion may be told of. */
  lemma PausedStatsOk(c: Config, vid: nat, st: FlowStats)
    requires Consistent(c, vid) && StraysOk(c.t, c.strays) && st in Stats(c.table)
    ensures StatOk(c.t, vid, st)
  {
    var full :| PausedFrom(c.t, vid, Paused(c.active), c.strays, c.table, full);
    var k :| k in c.table && st == FlowStats(k.priority, c.table[k].cookie);
    if k in StrayFlows(vid, c.strays) {
      StrayKeys(vid, c.strays, k);
      CookiePartition(vid, c.strays[k.m.dst.value.addr].id, 1);
    } else {
      assert st in Stats(full);
      TableStatsOk(c.t, vid, full, st);
    }
  }

  lemma SeenKept(c: Config, c': Config, vid: nat)
    requires Inv(c, vid) && Consistent(c', vid) && StraysOk(c'.t, c'.strays) && RoutesDescend(c.t, c'.t)
    requires forall rid :: rid in c'.pending ==>
      rid in c.pending && c'.pending[rid].seen <= c.pending[rid].seen + Stats(c'.table)
    ensures SeensOk(c', vid)
  {
    forall rid, st | rid in c'.pending && st in c'.pending[rid].seen
      ensures StatOk(c'.t, vid, st)
    {
      if st in c.pending[rid].seen {
        assert SeenOk(c.t, vid, c.pending[rid]);
        StatOkKept(c.t, c'.t, vid, st);
      } else {
        PausedStatsOk(c', vid, st);
      }
    }
  }

  lemma NewestIsNotPaused(c: Config)
    requires SkipsOk(c)
    ensures c.t.nextAddr !in Paused(c.active)
  {
    forall rid | rid in c.active
      ensures DeletionOk(c.t, c.active[rid])
    {
    }
  }

  /** A stray's address does not come back: ids are not used twice. */
  lemma StraysStay(t: Tables, vid: nat, strays: map<Ip, Stray>, e: Event)
    requires StraysOk(t, strays) && Admissible(t, e) && !e.DeleteAddress?
    ensures StraysOk(Next(t, vid, e), strays - Next(t, vid, e).learned.Keys)
  {
    var t' := Next(t, vid, e);
    forall id: nat | id < t.nextAddr && HasId(t'.addrs, id)
      ensures HasId(t.addrs, id)
    {
      var p :| p in t'.addrs && t'.addrs[p].id == id;
      assert p in t.addrs && t.addrs[p].id == id;
    }
  }

  lemma FewerStraysListed(active: map<nat, Deletion>, strays: map<Ip, Stray>, fewer: map<Ip, Stray>)
    requires StraysListed(active, strays)
    requires forall ip :: ip in fewer ==> ip in strays && fewer[ip] == strays[ip]
    ensures StraysListed(active, fewer)
  {
  }

  /** A handler that acts on nothing out of date. */
  lemma HandlerConsistent(c: Config, vid: nat, e: Event, mods: seq<FlowMod>, c': Config)
    requires Inv(c, vid) && Admissible(c.t, e) && !e.DeleteAddress? && Emits(c.t, vid, e, mods)
    requires Reported(c.t, vid, e) && Safe(c.t, vid, e)
    requires c'.t == Next(c.t, vid, e) && c'.table == ApplyMods(c.table, mods)
    requires c'.active == c.active && c'.strays == c.strays - c'.t.learned.Keys
    ensures Consistent(c', vid) && StraysOk(c'.t, c'.strays)
  {
    NewestIsNotPaused(c);
    EventKeeps(c.t, vid, Paused(c.active), c.strays, c.table, e, mods);
    StraysStay(c.t, vid, c.strays, e);
    FewerStraysListed(c.active, c.strays, c'.strays);
  }

  lemma HandleStep(c: Config, vid: nat, s: Step)
    requires Inv(c, vid) && Enabled(c, vid, s) && s.Handle?
    ensures Inv(Advance(c, vid, s), vid)
  {
    HandleConsistent(c, vid, s);
    IntegrityStep(c, vid, s);
    HandleSeen(c, vid, s);
  }

  lemma HandleConsistent(c: Config, vid: nat, s: Step)
    requires Inv(c, vid) && Enabled(c, vid, s) && s.Handle?
    ensures Consistent(Advance(c, vid, s), vid) && StraysOk(Advance(c, vid, s).t, Advance(c, vid, s).strays)
  {
    var c' := Advance(c, vid, s);
    assert c' == AfterHandler(c, Next(c.t, vid, s.e), ApplyMods(c.table, s.mods));
    HandlerConsistent(c, vid, s.e, s.mods, c');
  }

  lemma HandleSeen(c: Config, vid: nat, s: Step)
    requires Inv(c, vid) && Enabled(c, vid, s) && s.Handle?
    requires Consistent(Advance(c, vid, s), vid) && StraysOk(Advance(c, vid, s).t, Advance(c, vid, s).strays)
    ensures SeensOk(Advance(c, vid, s), vid)
  {
    NextDescends(c.t, vid, s.e);
    SeenKept(c, Advance(c, vid, s), vid);
  }

  lemma HostIdleStep(c: Config, vid: nat, s: Step)
    requires Inv(c, vid) && Enabled(c, vid, s) && s.HostIdle?
    ensures Inv(Advance(c, vid, s), vid)
  {
    var c' := Advance(c, vid, s);
    ExpiryKeeps(c.t, vid, Paused(c.active), c.strays, c.table, s.ip);
    FewerStraysListed(c.active, c.strays, c'.strays);
    IntegrityStep(c, vid, s);
    SeenKept(c, c', vid);
  }

  lemma AskStep(c: Config, vid: nat, s: Step)
    requires Inv(c, vid) && Enabled(c, vid, s) && s.Ask?
    ensures Inv(Advance(c, vid, s), vid)
  {
    var c' := Advance(c, vid, s);
    IntegrityStep(c, vid, s);
    forall rid, st | rid in c'.pending && st in c'.pending[rid].seen
      ensures StatOk(c'.t, vid, st)
    {
      if rid == s.rid {
        PausedStatsOk(c, vid, st);
      } else {
        assert SeenOk(c.t, vid, c.pending[rid]);
      }
    }
  }

  lemma PausedBy(active: map<nat, Deletion>, id: nat)
    ensures id in Paused(active) <==> exists rid :: rid in active && active[rid].at == Some(id)
  {
  }

  /** A report starts a deletion of addresses, which removes nothing yet. */
  lemma AddressAnswerStep(c: Config, vid: nat, s: Step)
    requires Inv(c, vid) && Enabled(c, vid, s) && s.Answer? && c.pending[s.rid].forAddress && s.rid !in c.active
    ensures Inv(Advance(c, vid, s), vid)
  {
    var c', r := Advance(c, vid, s), c.pending[s.rid];
    IntegrityStep(c, vid, s);
    StartedPauses(c.active, s.rid, Deletion(r, None, DeletedIds(vid, r.which, r.skip, s.dump)), c.strays);
    SeenKept(c, c', vid);
  }

  lemma StartedPauses(active: map<nat, Deletion>, rid: nat, d: Deletion, strays: map<Ip, Stray>)
    requires rid !in active && d.at.None? && StraysListed(active, strays)
    ensures Paused(active[rid := d]) == Paused(active) && StraysListed(active[rid := d], strays)
  {
    MoreListed(active, active[rid := d], strays);
    forall id | id in Paused(active)
      ensures id in Paused(active[rid := d])
    {
      var r :| r in active && active[r].at == Some(id);
      assert active[rid := d][r].at == Some(id);
    }
  }

  lemma MoreListed(active: map<nat, Deletion>, more: map<nat, Deletion>, strays: map<Ip, Stray>)
    requires StraysListed(active, strays)
    requires forall rid :: rid in active ==> rid in more && more[rid].rest == active[rid].rest
    ensures StraysListed(more, strays)
  {
    forall ip | ip in strays
      ensures Listed(more, strays[ip].id)
    {
      var rid :| rid in active && strays[ip].id in active[rid].rest;
      assert rid in more;
    }
  }

  /** The reported entries of routes are, or once were, those of routes. */
  lemma AnswerReported(c: Config, vid: nat, s: Step)
    requires Inv(c, vid) && Enabled(c, vid, s) && s.Answer?
    ensures Reported(c.t, vid, DeleteRoute(c.pending[s.rid].which, s.dump))
  {
    assert SeenOk(c.t, vid, c.pending[s.rid]);
  }

  /** A route deletion is consistent exactly when it overwrites no newer default route. */
  lemma RouteAnswerStep(c: Config, vid: nat, s: Step)
    requires Inv(c, vid) && Enabled(c, vid, s) && s.Answer? && !c.pending[s.rid].forAddress
    ensures var c' := Advance(c, vid, s);
      && (Consistent(c', vid) <==> NoStaleDefault(c.t, vid, c.pending[s.rid], s.dump))
      && (Consistent(c', vid) ==> Inv(c', vid))
  {
    if NoStaleDefault(c.t, vid, c.pending[s.rid], s.dump) {
      RouteAnswerSafe(c, vid, s);
    } else {
      RouteAnswerOverwrites(c, vid, s);
    }
  }

  lemma RouteAnswerSafe(c: Config, vid: nat, s: Step)
    requires Inv(c, vid) && Enabled(c, vid, s) && s.Answer? && !c.pending[s.rid].forAddress
    requires NoStaleDefault(c.t, vid, c.pending[s.rid], s.dump)
    ensures Consistent(Advance(c, vid, s), vid) && Inv(Advance(c, vid, s), vid)
  {
    var c', r := Advance(c, vid, s), c.pending[s.rid];
    var e := DeleteRoute(r.which, s.dump);
    assert SkipOk(c.t, r);
    AnswerReported(c, vid, s);
    HandlerConsistent(c, vid, e, RouteStatsMods(vid, SelectRoutes(vid, r.which, s.dump)), c');
    IntegrityStep(c, vid, s);
    NextDescends(c.t, vid, e);
    SeenKept(c, c', vid);
  }

  lemma RouteAnswerOverwrites(c: Config, vid: nat, s: Step)
    requires Inv(c, vid) && Enabled(c, vid, s) && s.Answer? && !c.pending[s.rid].forAddress
    requires !NoStaleDefault(c.t, vid, c.pending[s.rid], s.dump)
    ensures !Consistent(Advance(c, vid, s), vid)
  {
    var c', r := Advance(c, vid, s), c.pending[s.rid];
    assert SkipOk(c.t, r);
    AnswerReported(c, vid, s);
    OverwrittenDefault(c.t, vid, Paused(c.active), c'.strays, c.table, r.which, s.dump);
  }

  lemma StrikeStep(c: Config, vid: nat, s: Step)
    requires Inv(c, vid) && Enabled(c, vid, s) && s.Strike?
    ensures Inv(Advance(c, vid, s), vid)
  {
    StrikeConsistent(c, vid, s);
    IntegrityStep(c, vid, s);
    StrikeSeen(c, vid, s);
  }

  lemma StrikeConsistent(c: Config, vid: nat, s: Step)
    requires Inv(c, vid) && Enabled(c, vid, s) && s.Strike?
    ensures Consistent(Advance(c, vid, s), vid) && StraysOk(Advance(c, vid, s).t, Advance(c, vid, s).strays)
  {
    var id := c.active[s.rid].rest[0];
    StrikeAgrees(c, vid, s);
    StruckListed(c, vid, s);
    StruckStrays(c.t, c.strays, id);
  }

  lemma StrikeAgrees(c: Config, vid: nat, s: Step)
    requires Valid(c.t) && PausedAgrees(c.t, vid, Paused(c.active), c.strays, c.table) && StraysOk(c.t, c.strays)
    requires SkipsOk(c) && Enabled(c, vid, s) && s.Strike?
    ensures var c' := Advance(c, vid, s);
      Valid(c'.t) && PausedAgrees(c'.t, vid, Paused(c'.active), c'.strays, c'.table)
  {
    var c', id := Advance(c, vid, s), c.active[s.rid].rest[0];
    assert DeletionOk(c.t, c.active[s.rid]) && id in c.active[s.rid].rest;
    StruckPauses(c, vid, s);
    StrikePauses(c.t, vid, Paused(c.active), c.strays, c.table, id);
    assert c'.t == Struck(c.t, id) && c'.strays == StraysWithout(c.strays, id);
    assert c'.table == ApplyMod(c.table, Delete(AddressCookie(vid, id)));
  }

  lemma StrikeSeen(c: Config, vid: nat, s: Step)
    requires Inv(c, vid) && Enabled(c, vid, s) && s.Strike?
    requires Consistent(Advance(c, vid, s), vid) && StraysOk(Advance(c, vid, s).t, Advance(c, vid, s).strays)
    ensures SeensOk(Advance(c, vid, s), vid)
  {
    SeenKept(c, Advance(c, vid, s), vid);
  }

  lemma StruckPauses(c: Config, vid: nat, s: Step)
    requires Enabled(c, vid, s) && s.Strike?
    ensures var id := c.active[s.rid].rest[0];
      Paused(Advance(c, vid, s).active) == if HasId(c.t.addrs, id) then Paused(c.active) + {id} else Paused(c.active)
  {
    var active, active' := c.active, Advance(c, vid, s).active;
    forall id
      ensures id in Paused(active') <==>
        id in Paused(active) || (id == active[s.rid].rest[0] && HasId(c.t.addrs, id))
    {
      if rid :| rid in active && active[rid].at == Some(id) {
        assert rid in active' && active'[rid].at == Some(id);
      }
      if id == active[s.rid].rest[0] && HasId(c.t.addrs, id) {
        assert active'[s.rid].at == Some(id);
      }
    }
  }

  /** The strays whose cookie is struck go; the others are listed as before. */
  lemma StruckListed(c: Config, vid: nat, s: Step)
    requires StraysListed(c.active, c.strays) && Enabled(c, vid, s) && s.Strike?
    ensures StraysListed(Advance(c, vid, s).active, Advance(c, vid, s).strays)
  {
    var c', rest := Advance(c, vid, s), c.active[s.rid].rest;
    assert rest == [rest[0]] + rest[1..];
    forall ip | ip in c'.strays
      ensures Listed(c'.active, c'.strays[ip].id)
    {
      var rid :| rid in c.active && c.strays[ip].id in c.active[rid].rest;
      assert c.strays[ip].id in c'.active[rid].rest;
    }
  }

  lemma StruckStrays(t: Tables, strays: map<Ip, Stray>, id: nat)
    requires StraysOk(t, strays)
    ensures StraysOk(Struck(t, id), StraysWithout(strays, id))
  {
  }

  /** Removing the address is consistent exactly when no newer route needs it and its hosts are taken care of. */
  lemma ForgetStep(c: Config, vid: nat, s: Step)
    requires Inv(c, vid) && Enabled(c, vid, s) && s.Forget?
    ensures var c' := Advance(c, vid, s);
      && (Consistent(c', vid) <==> SafeForGateways(c, s) && SafeForSwitch(c, vid, s))
      && (Consistent(c', vid) ==> Inv(c', vid))
  {
    var c', d := Advance(c, vid, s), c.active[s.rid];
    var id := d.at.value;
    assert DeletionOk(c.t, d);
    IntegrityStep(c, vid, s);
    if SafeForGateways(c, s) {
      ForgetIsSafe(c.t, d.r, id);
      if !HasId(c.t.addrs, id) {
        UnregisteredUnrelated(c.t, id);
      }
      PausedBy(c.active, id);
      ForgetKeeps(c.t, vid, Paused(c.active), c.strays, c.table, id);
      PauseEnds(c, vid, s);
      ForgottenStrays(c.t, c.strays, id);
      ForgottenListed(c, vid, s);
      if Consistent(c', vid) {
        SeenKept(c, c', vid);
      }
    }
  }

  lemma UnregisteredUnrelated(t: Tables, id: nat)
    requires !HasId(t.addrs, id)
    ensures !Related(t, id)
  {
    if Related(t, id) {
      RelatedIsRegistered(t, id);
    }
  }

  /** What was consistent while the deletion paused at the removed address is so without that pause. */
  lemma PauseEnds(c: Config, vid: nat, s: Step)
    requires Valid(c.t) && Enabled(c, vid, s) && s.Forget?
    requires var id := c.active[s.rid].at.value;
      PausedAgrees(WithoutAddresses(c.t, {id}), vid, Paused(c.active), NewStrays(c.t, c.strays, id), c.table)
    ensures var c' := Advance(c, vid, s); PausedAgrees(c'.t, vid, Paused(c'.active), c'.strays, c'.table)
  {
    var c', id := Advance(c, vid, s), c.active[s.rid].at.value;
    PausedAfter(c.active, c'.active, s.rid, id);
    UnregisteredPause(c'.t, vid, Paused(c'.active), c'.strays, c'.table, id);
  }

  lemma PausedAfter(active: map<nat, Deletion>, active': map<nat, Deletion>, rid: nat, id: nat)
    requires rid in active && active[rid].at == Some(id)
    requires active' == active - {rid} || active' == active[rid := active[rid].(at := None)]
    ensures Paused(active') + {id} == Paused(active)
    ensures Paused(active') == Paused(active - {rid})
  {
    var others := active - {rid};
    forall i
      ensures i in Paused(active') || i == id <==> i in Paused(active)
      ensures i in Paused(active') <==> i in Paused(others)
    {
      PausedBy(active, i);
      PausedBy(active', i);
      PausedBy(others, i);
      if r :| r in active && active[r].at == Some(i) && r != rid {
        assert r in active' && active'[r].at == Some(i) && r in others && others[r].at == Some(i);
      }
      if r :| r in active' && active'[r].at == Some(i) {
        assert r in others && others[r].at == Some(i);
      }
      if r :| r in others && others[r].at == Some(i) {
        assert r in active && r in active' && active'[r].at == Some(i);
      }
      assert active[rid].at == Some(id);
    }
  }

  lemma ForgottenStrays(t: Tables, strays: map<Ip, Stray>, id: nat)
    requires StraysOk(t, strays) && Valid(t) && IdFits(id) && id < t.nextAddr
    ensures StraysOk(WithoutAddresses(t, {id}), NewStrays(t, strays, id))
  {
  }

  /** The hosts that lose their address are strays; they are listed exactly when its id still is. */
  lemma ForgottenListed(c: Config, vid: nat, s: Step)
    requires StraysListed(c.active, c.strays) && Enabled(c, vid, s) && s.Forget?
    ensures StraysListed(Advance(c, vid, s).active, Advance(c, vid, s).strays) <==> SafeForSwitch(c, vid, s)
  {
    var c', id := Advance(c, vid, s), c.active[s.rid].at.value;
    MoreListed(c.active, c'.active, c.strays);
    SameListed(c.active, c'.active, id);
    var hosts := HostsOf(c.t, id);
    if hosts != {} {
      var ip :| ip in hosts;
      assert ip in c'.strays && c'.strays[ip].id == id;
    }
  }

  lemma SameListed(active: map<nat, Deletion>, active': map<nat, Deletion>, id: nat)
    requires active.Keys == active'.Keys && forall rid :: rid in active ==> active'[rid].rest == active[rid].rest
    ensures Listed(active, id) <==> Listed(active', id)
  {
    if rid :| rid in active && id in active[rid].rest {
      assert id in active'[rid].rest;
    }
    if rid :| rid in active' && id in active'[rid].rest {
      assert id in active[rid].rest;
    }
  }

  /** A deletion that fails is consistent exactly when others take care of what it leaves. */
  lemma AbortStep(c: Config, vid: nat, s: Step)
    requires Inv(c, vid) && Enabled(c, vid, s) && s.Abort?
    ensures var c' := Advance(c, vid, s);
      && (Consistent(c', vid) <==> SafeForSwitch(c, vid, s))
      && (Consistent(c', vid) ==> Inv(c', vid))
  {
    AbortSwitch(c, vid, s);
    IntegrityStep(c, vid, s);
    if Consistent(Advance(c, vid, s), vid) {
      SeenKept(c, Advance(c, vid, s), vid);
    }
  }

  lemma AbortSwitch(c: Config, vid: nat, s: Step)
    requires Inv(c, vid) && Enabled(c, vid, s) && s.Abort?
    ensures Consistent(Advance(c, vid, s), vid) <==> SafeForSwitch(c, vid, s)
  {
    var c', id := Advance(c, vid, s), c.active[s.rid].at.value;
    PausedAfter(c.active, c'.active, s.rid, id);
    if HasId(c.t.addrs, id) && id !in Paused(c'.active) {
      AbandonedAddress(c.t, vid, Paused(c.active), c.strays, c.table, id, Paused(c'.active), c'.strays);
    } else if !HasId(c.t.addrs, id) {
      UnregisteredPause(c.t, vid, Paused(c'.active), c.strays, c.table, id);
    } else {
      assert Paused(c'.active) == Paused(c.active);
    }
  }

  lemma FinishStep(c: Config, vid: nat, s: Step)
    requires Inv(c, vid) && Enabled(c, vid, s) && s.Finish?
    ensures Inv(Advance(c, vid, s), vid)
  {
    IntegrityStep(c, vid, s);
    FinishedPauses(c.active, s.rid, c.strays);
    SeenKept(c, Advance(c, vid, s), vid);
  }

  lemma FinishedPauses(active: map<nat, Deletion>, rid: nat, strays: map<Ip, Stray>)
    requires rid in active && active[rid].at.None? && active[rid].rest == []
    ensures Paused(active - {rid}) == Paused(active)
    ensures StraysListed(active, strays) ==> StraysListed(active - {rid}, strays)
  {
    var others := active - {rid};
    forall id | id in Paused(active)
      ensures id in Paused(others)
    {
      var r :| r in active && active[r].at == Some(id);
      assert others[r].at == Some(id);
    }
    forall id | Listed(active, id)
      ensures Listed(others, id)
    {
      var r :| r in active && id in active[r].rest;
      assert r in others && id in others[r].rest;
    }
  }

  /**
   One step keeps tables and switch consistent exactly when it is safe: a report overwrites no newer
   default route; an address goes only while no newer route needs it and no host learned in the pause
   is left over; and a deletion that fails leaves nothing behind.
   */
  lemma StepExact(c: Config, vid: nat, s: Step)
    requires Inv(c, vid) && Enabled(c, vid, s) && (s.Answer? ==> s.rid !in c.active)
    ensures var c' := Advance(c, vid, s);
      && (Consistent(c', vid) <==> SafeForGateways(c, s) && SafeForSwitch(c, vid, s))
      && (Consistent(c', vid) ==> Inv(c', vid))
  {
    match s
    case Handle(_, _) => HandleStep(c, vid, s);
    case HostIdle(_) => HostIdleStep(c, vid, s);
    case Ask(_, _, _) => AskStep(c, vid, s);
    case Answer(_, _) =>
      if c.pending[s.rid].forAddress {
        AddressAnswerStep(c, vid, s);
      } else {
        RouteAnswerStep(c, vid, s);
      }
    case Strike(_) => StrikeStep(c, vid, s);
    case Forget(_) => ForgetStep(c, vid, s);
    case Abort(_) => AbortStep(c, vid, s);
    case Finish(_) => FinishStep(c, vid, s);
  }

  // ---------------------------------------------------------------- all runs

  ghost predicate AlwaysConsistent(vid: nat, run: seq<Step>)
    requires IsRun(vid, run)
  {
    Consistent(After(vid, run), vid) && (run != [] ==> AlwaysConsistent(vid, run[..|run| - 1]))
  }

  /** No step of the run is unsafe for gateways or switch. */
  ghost predicate AlwaysSafe(vid: nat, run: seq<Step>)
    requires IsRun(vid, run)
  {
    run != [] ==>
      var front := run[..|run| - 1];
      && AlwaysSafe(vid, front)
      && SafeForGateways(After(vid, front), run[|run| - 1])
      && SafeForSwitch(After(vid, front), vid, run[|run| - 1])
  }

  lemma StartConsistent(vid: nat)
    ensures Inv(Start(vid), vid)
  {
    InitialAgrees(vid);
    assert Paused(map[]) == {};
    NothingPaused(EMPTY_TABLES, vid, Start(vid).table);
  }

  /** A question and a running deletion never share their number. */
  lemma {:induction false} NumbersApart(vid: nat, run: seq<Step>)
    requires IsRun(vid, run)
    ensures var c := After(vid, run); c.pending.Keys !! c.active.Keys
  {
    if run != [] {
      var front := run[..|run| - 1];
      NumbersApart(vid, front);
      NumbersStayApart(After(vid, front), vid, run[|run| - 1]);
    }
  }

  lemma NumbersStayApart(c: Config, vid: nat, s: Step)
    requires Enabled(c, vid, s) && c.pending.Keys !! c.active.Keys
    ensures Advance(c, vid, s).pending.Keys !! Advance(c, vid, s).active.Keys
  {
  }

  /**
   In every state of a run the tables are valid and the switch holds what they call for, up to the
   addresses deletions pause at and the entries they have still to remove, if and only if every step
   of the run is safe.
   */
  lemma {:induction false} ReachableAgrees(vid: nat, run: seq<Step>)
    requires IsRun(vid, run)
    ensures AlwaysConsistent(vid, run) <==> AlwaysSafe(vid, run)
    ensures AlwaysSafe(vid, run) ==> Inv(After(vid, run), vid)
  {
    if run == [] {
      StartConsistent(vid);
    } else {
      var front := run[..|run| - 1];
      ReachableAgrees(vid, front);
      NumbersApart(vid, front);
      if AlwaysSafe(vid, front) {
        StepExact(After(vid, front), vid, run[|run| - 1]);
      }
    }
  }

  /** Whenever no deletion is under way, such a run has valid tables and a switch in full agreement. */
  lemma SettledAgrees(vid: nat, run: seq<Step>)
    requires IsRun(vid, run) && AlwaysSafe(vid, run) && Settled(After(vid, run))
    ensures Good(After(vid, run), vid)
  {
    ReachableAgrees(vid, run);
    SettledIsGood(After(vid, run), vid);
  }

  /** One entry is selected, and its action is the one the tables call for. */
  ghost predicate ForwardsAsPrescribed(c: Config, src: Ip, dst: Ip) {
    && (exists k :: Selected(c.table, src, dst, k))
    && (forall k :: Selected(c.table, src, dst, k) ==> Treats(c.t, src, dst, c.table[k].action))
  }

  /** Then the switch treats every IPv4 packet of the VLAN as the tables prescribe. */
  lemma EveryRunForwardsAsPrescribed(vid: nat, run: seq<Step>, src: Ip, dst: Ip)
    requires IsRun(vid, run) && AlwaysSafe(vid, run) && Settled(After(vid, run))
    ensures ForwardsAsPrescribed(After(vid, run), src, dst)
  {
    SettledAgrees(vid, run);
    GoodForwards(After(vid, run), vid, src, dst);
  }

  lemma GoodForwards(c: Config, vid: nat, src: Ip, dst: Ip)
    requires Good(c, vid)
    ensures ForwardsAsPrescribed(c, src, dst)
  {
    CompilationPreservesMeaning(c.t, vid, c.table, src, dst);
    PrescribedTreats(c.t, src, dst);
  }

  ghost predicate AlwaysRegistered(vid: nat, run: seq<Step>)
    requires IsRun(vid, run)
  {
    GatewaysRegistered(After(vid, run).t) && (run != [] ==> AlwaysRegistered(vid, run[..|run| - 1]))
  }

  /** Up to the moment an address is removed, no route has been added through it since the question. */
  ghost predicate NoRouteOvertakes(vid: nat, run: seq<Step>)
    requires IsRun(vid, run)
  {
    run != [] ==>
      NoRouteOvertakes(vid, run[..|run| - 1]) && SafeForGateways(After(vid, run[..|run| - 1]), run[|run| - 1])
  }

  /**
   Referential integrity: in every state of a run each gateway lies in a registered network and is
   not its router address, if and only if no route overtakes the deletion of its gateway's address,
   neither while the deletion waits nor while it pauses.
   */
  lemma {:induction false} GatewaysStayRegistered(vid: nat, run: seq<Step>)
    requires IsRun(vid, run)
    ensures AlwaysRegistered(vid, run) <==> NoRouteOvertakes(vid, run)
    ensures NoRouteOvertakes(vid, run) ==> Valid(After(vid, run).t) && SkipsOk(After(vid, run))
  {
    if run == [] {
      InitialAgrees(vid);
    } else {
      var front := run[..|run| - 1];
      GatewaysStayRegistered(vid, front);
      if NoRouteOvertakes(vid, front) {
        IntegrityStep(After(vid, front), vid, run[|run| - 1]);
      }
    }
  }

  /** After such a run `send_arp_all_gw` finds an address for each gateway. */
  lemma EveryGatewayHasAddress(vid: nat, run: seq<Step>, p: Prefix)
    requires IsRun(vid, run) && NoRouteOvertakes(vid, run) && p in After(vid, run).t.routes
    ensures var t := After(vid, run).t;
      var a := AddressOf(t.addrs, t.routes[p].gateway);
      a.Some? && Covers(a.value.net, t.routes[p].gateway) && a.value.gw != t.routes[p].gateway
  {
    GatewaysStayRegistered(vid, run);
    var t := After(vid, run).t;
    AddressOfCovers(t.addrs, t.nextAddr, t.routes[p].gateway);
  }
}
