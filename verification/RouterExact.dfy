/**
 Where the conditions on the router's runs come from: runs that break them, and what the handlers do
 with any id and any report.
 */
module RouterExact {
  import opened Wrappers
  import opened Cidr
  import opened RouterTables
  import opened RouterSteps
  import opened RouterEvents
  import opened RouterPause
  import opened RouterRuns

  // ---------------------------------------------------------------- deletions with a full report

  ghost predicate FromTable(table: FlowTable, st: FlowStats) {
    exists k :: k in table && k.priority == st.priority && table[k].cookie == st.cookie
  }

  /** A report of the present table: nothing else but entries of other VLANs and switch-wide ones. */
  ghost predicate IsDump(table: FlowTable, vid: nat, dump: seq<FlowStats>) {
    forall st :: st in dump ==>
      || FromTable(table, st)
      || CookieToVid(st.cookie) != vid
      || CookieToAddressId(st.cookie) == 0
  }

  ghost predicate IsFullDump(table: FlowTable, dump: seq<FlowStats>) {
    forall k :: k in table ==> FlowStats(k.priority, table[k].cookie) in dump
  }

  lemma DumpReported(t: Tables, vid: nat, table: FlowTable, which: Option<nat>, dump: seq<FlowStats>)
    requires Valid(t) && Agrees(t, vid, table) && IsDump(table, vid, dump)
    ensures Reported(t, vid, DeleteRoute(which, dump))
  {
    forall st | st in dump
      ensures StatOk(t, vid, st)
    {
      if FromTable(table, st) {
        var k :| k in table && k.priority == st.priority && table[k].cookie == st.cookie;
        assert st == FlowStats(k.priority, table[k].cookie);
        TableStatsOk(t, vid, table, st);
      }
    }
  }

  /** In a report of the present table every default route's entry is the present one's. */
  lemma PresentReportIsSafe(t: Tables, vid: nat, table: FlowTable, which: Option<nat>, dump: seq<FlowStats>)
    requires Valid(t) && Agrees(t, vid, table) && IsDump(table, vid, dump) && AdmissibleId(which)
    ensures !OverwritesDefault(t, vid, SelectRoutes(vid, which, dump))
  {
    var stats := SelectRoutes(vid, which, dump);
    SelectRoutesSound(vid, which, dump);
    if DEFAULT_NET in t.routes {
      forall st | st in stats && IsDefaultStat(vid, st)
        ensures CookieToRouteId(st.cookie) == t.routes[DEFAULT_NET].id
      {
        PresentDefaultStat(t, vid, table, st);
      }
    }
  }

  lemma PresentDefaultStat(t: Tables, vid: nat, table: FlowTable, st: FlowStats)
    requires Valid(t) && Agrees(t, vid, table) && DEFAULT_NET in t.routes
    requires FromTable(table, st) && IsDefaultStat(vid, st)
    ensures CookieToRouteId(st.cookie) == t.routes[DEFAULT_NET].id
  {
    var k :| k in table && k.priority == st.priority && table[k].cookie == st.cookie;
    HeldIsExpected(t, vid, table, k);
    if IsRouteKey(vid, k) {
      RouteEntryPriority(t, vid, k);
      CookiePartition(vid, 1, t.routes[DEFAULT_NET].id);
    } else {
      AddressEntryPriority(t, vid, k);
    }
  }

  lemma HeldIsExpected(t: Tables, vid: nat, table: FlowTable, k: FlowKey)
    requires Agrees(t, vid, table) && k in table
    ensures IsRouteKey(vid, k) ==> ExpectedRoute(t.routes, vid, k) == Some(table[k])
    ensures !IsRouteKey(vid, k) ==> ExpectedAddress(t.addrs, t.learned, vid, k) == Some(table[k])
  {
    assert IsRouteKey(vid, k) ==> Holds(table, k, ExpectedRoute(t.routes, vid, k));
    assert !IsRouteKey(vid, k) ==> Holds(table, k, ExpectedAddress(t.addrs, t.learned, vid, k));
  }

  lemma RouteEntryPriority(t: Tables, vid: nat, k: FlowKey)
    requires IsRouteKey(vid, k) && ExpectedRoute(t.routes, vid, k).Some?
    ensures GetPriorityType(k.priority, vid) == PRIORITY_DEFAULT_ROUTING <==> k == DefaultKey(vid)
  {
  }

  lemma AddressEntryPriority(t: Tables, vid: nat, k: FlowKey)
    requires ExpectedAddress(t.addrs, t.learned, vid, k).Some?
    ensures GetPriorityType(k.priority, vid) != PRIORITY_DEFAULT_ROUTING
  {
  }

  /** Deleting "all" addresses removes exactly those no route's gateway depends on. */
  lemma DeleteAllAddresses(t: Tables, vid: nat, table: FlowTable, dump: seq<FlowStats>, p: Prefix)
    requires Valid(t) && Agrees(t, vid, table) && IsFullDump(table, dump) && p in t.addrs
    ensures p in Next(t, vid, DeleteAddress(None, SkipIds(t, None), dump)).addrs <==> Related(t, t.addrs[p].id)
  {
    var id := t.addrs[p].id;
    var st := FlowStats(LearnKey(vid, p).priority, AddressCookie(vid, id));
    var skip := SkipIds(t, None);
    InstalledForAddress(t, vid, table, p);
    CookiePartition(vid, id, 1);
    SkipIdsAreRelated(t, None, id);
    FilterAddressesSound(vid, None, skip, dump);
    AddressStatIdsElements(FilterAddresses(vid, None, skip, dump), id);
    assert LearnKey(vid, p) in table && st in dump;
    assert AddressSelected(vid, None, skip, st) <==> !Related(t, id);
  }

  lemma RouteIsSelected(t: Tables, vid: nat, table: FlowTable, dump: seq<FlowStats>, p: Prefix)
    requires Valid(t) && Agrees(t, vid, table) && IsFullDump(table, dump) && p in t.routes
    ensures t.routes[p].id in RouteStatIds(SelectRoutes(vid, None, dump))
  {
    var st := FlowStats(RouteKey(vid, t.routes[p]).priority, RouteCookie(vid, t.routes[p].id));
    InstalledForRoute(t, vid, table, p);
    CookiePartition(vid, 1, t.routes[p].id);
    SelectRoutesSound(vid, None, dump);
    assert st in Elements(SelectRoutes(vid, None, dump));
  }

  /** Deleting "all" routes removes every route, and the switch is left with the drop entry. */
  lemma DeleteAllRoutes(t: Tables, vid: nat, table: FlowTable, dump: seq<FlowStats>)
    requires Valid(t) && Agrees(t, vid, table) && IsFullDump(table, dump) && IsDump(table, vid, dump)
    ensures Next(t, vid, DeleteRoute(None, dump)).routes == map[]
    ensures Holds(ApplyMods(table, RouteStatsMods(vid, SelectRoutes(vid, None, dump))), DefaultKey(vid),
                  Some(DropFlow(vid)))
  {
    var stats := SelectRoutes(vid, None, dump);
    forall p | p in t.routes ensures t.routes[p].id in RouteStatIds(stats) {
      RouteIsSelected(t, vid, table, dump, p);
    }
    assert RoutesWithout(t.routes, RouteStatIds(stats)) == map[];
    DropInstalled(t, vid, table, dump);
  }

  lemma DropInstalled(t: Tables, vid: nat, table: FlowTable, dump: seq<FlowStats>)
    requires Valid(t) && Agrees(t, vid, table) && IsDump(table, vid, dump)
    requires Next(t, vid, DeleteRoute(None, dump)).routes == map[]
    ensures Holds(ApplyMods(table, RouteStatsMods(vid, SelectRoutes(vid, None, dump))), DefaultKey(vid),
                  Some(DropFlow(vid)))
  {
    var stats := SelectRoutes(vid, None, dump);
    DumpReported(t, vid, table, None, dump);
    PresentReportIsSafe(t, vid, table, None, dump);
    DeleteRouteStepExact(t, vid, None, dump, table);
    var t' := WithoutRoutes(t, RouteStatIds(stats));
    assert Next(t, vid, DeleteRoute(None, dump)) == t';
    InstalledForDefault(t', vid, ApplyMods(table, RouteStatsMods(vid, stats)));
  }

  // ---------------------------------------------------------------- ids a caller may pass

  /** `n` is not the reserved id while the drop entry is installed, nor the cookie part of a live route. */
  ghost predicate SafeAddressId(t: Tables, n: nat) {
    && (n == 0 ==> DEFAULT_NET in t.routes)
    && (forall p :: p in t.routes ==> t.routes[p].id * COOKIE_ROUTE_UNIT != n)
  }

  lemma DeleteOneIdExact(t: Tables, vid: nat, n: nat, table: FlowTable)
    requires Valid(t) && Agrees(t, vid, table) && !Related(t, n)
    ensures Agrees(WithoutAddresses(t, {n}), vid, ApplyMod(table, Delete(AddressCookie(vid, n))))
       <==> SafeAddressId(t, n)
  {
    var t' := WithoutAddresses(t, {n});
    var table' := ApplyMod(table, Delete(AddressCookie(vid, n)));
    if IdFits(n) {
      DeleteAddressKeeps(t, vid, n, table);
    } else if SafeAddressId(t, n) {
      forall k | k in table ensures table[k].cookie != AddressCookie(vid, n) {
        CookieOfNoEntry(t, vid, n, table, k);
      }
      assert table' == table;
      NoSuchAddress(t, n);
    } else if n == 0 {
      InstalledForDefault(t, vid, table);
      assert IsRouteKey(vid, DefaultKey(vid)) && DefaultKey(vid) !in table';
      assert !Holds(table', DefaultKey(vid), ExpectedRoute(t.routes, vid, DefaultKey(vid)));
    } else {
      var p :| p in t.routes && t.routes[p].id * COOKIE_ROUTE_UNIT == n;
      InstalledForRoute(t, vid, table, p);
      LostRoute(t, vid, p, table');
    }
  }

  lemma {:induction false} DeletesOfOneId(vid: nat, n: nat, ids: seq<nat>, table: FlowTable)
    requires forall i :: 0 <= i < |ids| ==> ids[i] == n
    ensures ApplyMods(table, AddressDeletes(vid, ids))
         == if ids == [] then table else ApplyMod(table, Delete(AddressCookie(vid, n)))
  {
    if ids != [] {
      var rest := ids[..|ids| - 1];
      DeletesOfOneId(vid, n, rest, table);
      ApplyAppended(table, AddressDeletes(vid, rest), Delete(AddressCookie(vid, ids[|ids| - 1])));
    }
  }

  /** An entry with the id's cookie, if the switch holds one, is reported and selected. */
  lemma HeldEntrySelected(t: Tables, vid: nat, n: nat, skip: set<nat>, dump: seq<FlowStats>, table: FlowTable,
                          k: FlowKey)
    requires IsFullDump(table, dump) && k in table && table[k].cookie == AddressCookie(vid, n)
    requires n !in skip && n < COOKIE_VLAN_UNIT
    ensures n in DeletedIds(vid, Some(n), skip, dump)
  {
    var st := FlowStats(k.priority, table[k].cookie);
    assert st in dump;
    FilterAddressesSound(vid, Some(n), skip, dump);
    AddressStatIdsElements(FilterAddresses(vid, Some(n), skip, dump), n);
  }

  /**
   A caller may pass any id. With a complete report, deleting address `n` keeps the switch in
   agreement exactly when `n` is not the reserved 0 while the drop entry is installed, nor the cookie
   part of a live route.
   */
  lemma DeleteAddressIdExact(t: Tables, vid: nat, n: nat, table: FlowTable, dump: seq<FlowStats>)
    requires Valid(t) && Agrees(t, vid, table) && IsFullDump(table, dump)
    ensures var skip := SkipIds(t, Some(n));
      Agrees(Next(t, vid, DeleteAddress(Some(n), skip, dump)), vid,
             ApplyMods(table, AddressDeletes(vid, DeletedIds(vid, Some(n), skip, dump))))
      <==> SafeAddressId(t, n)
  {
    var skip := SkipIds(t, Some(n));
    var ids := DeletedIds(vid, Some(n), skip, dump);
    forall id | id in ids
      ensures id == n && !Related(t, n)
    {
      DeletedIdsSound(vid, Some(n), skip, dump, id);
      SkipIdsAreRelated(t, Some(n), n);
    }
    assert forall i :: 0 <= i < |ids| ==> ids[i] in ids;
    DeletesOfOneId(vid, n, ids, table);
    if ids == [] {
      assert Elements(ids) == {};
      WithoutNone(t);
      NothingSelectedIsSafe(t, vid, n, table, dump);
    } else {
      assert ids[0] in ids;
      assert Elements(ids) == {n};
      DeleteOneIdExact(t, vid, n, table);
    }
  }

  lemma NothingSelectedIsSafe(t: Tables, vid: nat, n: nat, table: FlowTable, dump: seq<FlowStats>)
    requires Valid(t) && Agrees(t, vid, table) && IsFullDump(table, dump)
    requires DeletedIds(vid, Some(n), SkipIds(t, Some(n)), dump) == []
    ensures SafeAddressId(t, n)
  {
    var skip := SkipIds(t, Some(n));
    if n == 0 && DEFAULT_NET !in t.routes {
      InstalledForDefault(t, vid, table);
      UnrelatedId(t, n);
      HeldEntrySelected(t, vid, n, skip, dump, table, DefaultKey(vid));
    }
    forall p | p in t.routes
      ensures t.routes[p].id * COOKIE_ROUTE_UNIT != n
    {
      if t.routes[p].id * COOKIE_ROUTE_UNIT == n {
        InstalledForRoute(t, vid, table, p);
        UnrelatedId(t, n);
        HeldEntrySelected(t, vid, n, skip, dump, table, RouteKey(vid, t.routes[p]));
      }
    }
  }

  lemma UnrelatedId(t: Tables, n: nat)
    requires Valid(t) && !IdFits(n)
    ensures n !in SkipIds(t, Some(n))
  {
    SkipIdsAreRelated(t, Some(n), n);
    forall p | p in t.routes
      ensures !OwnedBy(t.addrs, t.routes[p].gateway, {n})
    {
      AddressOfCovers(t.addrs, t.nextAddr, t.routes[p].gateway);
    }
  }

  lemma LostRoute(t: Tables, vid: nat, p: Prefix, table: FlowTable)
    requires RoutesValid(t.routes, t.nextRoute) && p in t.routes
    requires RouteKey(vid, t.routes[p]) !in table
    ensures !RoutesAgree(t.routes, vid, table)
  {
    var k := RouteKey(vid, t.routes[p]);
    ApplyMaskEnds(p.addr);
    assert IsRouteKey(vid, k) && !Holds(table, k, ExpectedRoute(t.routes, vid, k));
  }

  lemma NoSuchAddress(t: Tables, n: nat)
    requires Valid(t) && !IdFits(n)
    ensures WithoutAddresses(t, {n}) == t
  {
    forall ip | ip in t.learned ensures !OwnedBy(t.addrs, ip, {n}) {
      AddressOfCovers(t.addrs, t.nextAddr, ip);
    }
    assert AddressesWithout(t.addrs, {n}) == t.addrs;
    assert WithoutAddresses(t, {n}).learned == t.learned;
  }

  lemma CookieOfNoEntry(t: Tables, vid: nat, n: nat, table: FlowTable, k: FlowKey)
    requires Valid(t) && Agrees(t, vid, table) && k in table
    requires !IdFits(n) && SafeAddressId(t, n)
    ensures table[k].cookie != AddressCookie(vid, n)
  {
    if IsRouteKey(vid, k) {
      assert Holds(table, k, ExpectedRoute(t.routes, vid, k));
    } else {
      assert Holds(table, k, ExpectedAddress(t.addrs, t.learned, vid, k));
      AddressEntryHasFittingId(t, vid, k);
    }
  }

  lemma AddressEntryHasFittingId(t: Tables, vid: nat, k: FlowKey)
    requires AddrsValid(t.addrs, t.nextAddr) && ExpectedAddress(t.addrs, t.learned, vid, k).Some?
    ensures exists id ::
      IdFits(id) && AddressCookie(vid, id) == ExpectedAddress(t.addrs, t.learned, vid, k).value.cookie
  {
    var p := k.m.dst.value;
    if AddressOf(t.addrs, p.addr).Some? {
      AddressOfCovers(t.addrs, t.nextAddr, p.addr);
    }
    var cookie := ExpectedAddress(t.addrs, t.learned, vid, k).value.cookie;
    var id := cookie - vid * COOKIE_VLAN_UNIT;
    assert cookie == AddressCookie(vid, id);
    assert IdFits(id);
  }

  /**
   Route id 0 selects every address entry: once the switch reports the entries of one address,
   deleting "route 0" leaves that address without them.
   */
  lemma DeleteRouteZeroDisagrees(t: Tables, vid: nat, table: FlowTable, p: Prefix, dump: seq<FlowStats>,
                                 st: FlowStats)
    requires Valid(t) && Agrees(t, vid, table) && p in t.addrs
    requires st in dump && st.cookie == AddressCookie(vid, t.addrs[p].id)
    ensures !Agrees(Next(t, vid, DeleteRoute(Some(0), dump)), vid,
                    ApplyMods(table, RouteStatsMods(vid, SelectRoutes(vid, Some(0), dump))))
  {
    var stats := SelectRoutes(vid, Some(0), dump);
    assert st in stats by {
      SelectRoutesSound(vid, Some(0), dump);
      CookiePartition(vid, t.addrs[p].id, 1);
    }
    InstalledForAddress(t, vid, table, p);
    EntriesLost(vid, stats, table, st.cookie, LearnKey(vid, p));
    LostAddress(Next(t, vid, DeleteRoute(Some(0), dump)), vid, ApplyMods(table, RouteStatsMods(vid, stats)), p);
  }

  /**
   With a complete report, deleting the routes with id `n` keeps the switch in agreement exactly
   when `n` is not 0, as long as some address is registered.
   */
  lemma DeleteRouteIdExact(t: Tables, vid: nat, n: nat, table: FlowTable, dump: seq<FlowStats>)
    requires Valid(t) && Agrees(t, vid, table) && t.addrs != map[]
    requires IsFullDump(table, dump) && IsDump(table, vid, dump)
    ensures Agrees(Next(t, vid, DeleteRoute(Some(n), dump)), vid,
                   ApplyMods(table, RouteStatsMods(vid, SelectRoutes(vid, Some(n), dump))))
       <==> n != 0
  {
    if n == 0 {
      var p :| p in t.addrs;
      var st := FlowStats(LearnKey(vid, p).priority, AddressCookie(vid, t.addrs[p].id));
      InstalledForAddress(t, vid, table, p);
      assert st in dump;
      DeleteRouteZeroDisagrees(t, vid, table, p, dump, st);
    } else if IdFits(n) {
      DumpReported(t, vid, table, Some(n), dump);
      PresentReportIsSafe(t, vid, table, Some(n), dump);
      DeleteRouteStepExact(t, vid, Some(n), dump, table);
    } else {
      NoRouteSelected(vid, n, dump);
      WithoutNoRoutes(t);
    }
  }

  lemma {:induction false} NoRouteSelected(vid: nat, n: nat, dump: seq<FlowStats>)
    requires n > 0xffff
    ensures SelectRoutes(vid, Some(n), dump) == []
  {
    if dump != [] {
      NoRouteSelected(vid, n, dump[..|dump| - 1]);
      assert CookieToRouteId(dump[|dump| - 1].cookie) <= 0xffff;
    }
  }

  lemma WithoutNoRoutes(t: Tables)
    ensures WithoutRoutes(t, RouteStatIds([])) == t
  {
    assert RouteStatIds([]) == {};
    assert RoutesWithout(t.routes, {}) == t.routes;
  }

  lemma LostAddress(t: Tables, vid: nat, table: FlowTable, p: Prefix)
    requires AddrsValid(t.addrs, t.nextAddr) && p in t.addrs && LearnKey(vid, p) !in table
    ensures !Agrees(t, vid, table)
  {
    if Agrees(t, vid, table) {
      InstalledForAddress(t, vid, table, p);
    }
  }

  /** Once a cookie is deleted its entries stay away: only the drop entry is ever added back. */
  lemma {:induction false} EntriesLost(vid: nat, stats: seq<FlowStats>, table: FlowTable, cookie: nat, k: FlowKey)
    requires k != DefaultKey(vid)
    ensures var table' := ApplyMods(table, RouteStatsMods(vid, stats));
      && (k in table' ==> k in table && table'[k] == table[k])
      && (k in table && table[k].cookie == cookie && (exists st :: st in stats && st.cookie == cookie)
          ==> k !in table')
  {
    if stats != [] {
      var rest, st := stats[..|stats| - 1], stats[|stats| - 1];
      var before := ApplyMods(table, RouteStatsMods(vid, rest));
      EntriesLost(vid, rest, table, cookie, k);
      ApplyConcat(table, RouteStatsMods(vid, rest), RouteStatMods(vid, st));
      ApplyRouteStat(before, vid, st);
      assert stats == rest + [st];
    }
  }

  // ---------------------------------------------------------------- runs that break the conditions

  ghost predicate Reachable(vid: nat, c: Config) {
    exists run :: IsRun(vid, run) && After(vid, run) == c
  }

  lemma ReachableNext(vid: nat, c: Config, s: Step)
    requires Reachable(vid, c) && Enabled(c, vid, s)
    ensures Reachable(vid, Advance(c, vid, s))
  {
    var run :| IsRun(vid, run) && After(vid, run) == c;
    assert (run + [s])[..|run|] == run;
    assert IsRun(vid, run + [s]) && After(vid, run + [s]) == Advance(c, vid, s);
  }

  /** The tables once one address is registered. */
  function OneAddress(gw: Ip, len: PrefixLen): Tables {
    WithAddress(EMPTY_TABLES, gw, len)
  }

  function AfterOneAddress(vid: nat, gw: Ip, len: PrefixLen): Config {
    Config(OneAddress(gw, len), ApplyMods(map[DefaultKey(vid) := DropFlow(vid)],
                                          AddressMods(vid, Address(1, NetOf(gw, len), gw))), map[], map[], map[])
  }

  lemma OneAddressReachable(vid: nat, gw: Ip, len: PrefixLen)
    ensures var c := AfterOneAddress(vid, gw, len); Reachable(vid, c) && Good(c, vid)
  {
    var mods := AddressMods(vid, Address(1, NetOf(gw, len), gw));
    var s := Handle(SetAddress(gw, len), mods);
    InitialAgrees(vid);
    assert IsRun(vid, []) && After(vid, []) == Start(vid);
    ReachableNext(vid, Start(vid), s);
    assert Advance(Start(vid), vid, s) == AfterOneAddress(vid, gw, len);
    StepKeeps(EMPTY_TABLES, vid, SetAddress(gw, len), mods, Start(vid).table);
  }

  lemma DefaultAccepted(t: Tables, gw: Ip, len: PrefixLen, gateway: Ip)
    requires t.addrs == OneAddress(gw, len).addrs && DEFAULT_NET !in t.routes
    requires gateway != gw && Covers(NetOf(gw, len), gateway)
    ensures RouteAccepted(t, DefaultRoute, gateway)
  {
    var net := NetOf(gw, len);
    assert t.addrs == map[net := Address(1, net, gw)];
    assert AddressOf(t.addrs, gateway) == Some(Address(1, net, gw));
  }

  /** The deletion still waits for the same thing, and has seen no less. */
  predicate StillPending(c: Config, c': Config, rid: nat) {
    && rid in c.pending
    && rid in c'.pending
    && c'.pending[rid] == c.pending[rid].(seen := c'.pending[rid].seen)
    && c.pending[rid].seen <= c'.pending[rid].seen
  }

  lemma DefaultRouteAdded(c: Config, vid: nat, gw: Ip, len: PrefixLen, gateway: Ip)
    returns (c': Config)
    requires Reachable(vid, c) && c.t.addrs == OneAddress(gw, len).addrs && DEFAULT_NET !in c.t.routes
    requires gateway != gw && Covers(NetOf(gw, len), gateway) && c.t.nextRoute <= 0xffff && Idle(c)
    ensures Reachable(vid, c') && c'.active == c.active && c'.t == WithRoute(c.t, true, DEFAULT_NET, gateway)
    ensures Holds(c'.table, DefaultKey(vid), Some(RouteFlow(vid, c'.t.routes[DEFAULT_NET])))
    ensures c'.pending.Keys == c.pending.Keys && forall rid :: rid in c.pending ==> StillPending(c, c', rid)
  {
    var r := Route(c.t.nextRoute, true, DEFAULT_NET, gateway, None);
    var s := Handle(SetRoute(DefaultRoute, gateway), RouteMods(vid, r));
    DefaultAccepted(c.t, gw, len, gateway);
    ReachableNext(vid, c, s);
    ApplyOne(c.table, RouteMods(vid, r)[0]);
    assert ApplyMods(c.table, RouteMods(vid, r)) == c.table[DefaultKey(vid) := RouteFlow(vid, r)];
    c' := Advance(c, vid, s);
  }

  lemma QuestionAsked(c: Config, vid: nat, rid: nat, forAddress: bool, which: Option<nat>)
    returns (c': Config)
    requires Reachable(vid, c) && rid !in c.pending && AdmissibleId(which) && c.active == map[]
    ensures Reachable(vid, c') && c'.t == c.t && c'.table == c.table && c'.active == map[]
    ensures c'.pending == c.pending[rid := Request(forAddress, which, if forAddress then SkipIds(c.t, which) else {},
                                                   c.t.nextRoute, Stats(c.table))]
  {
    var s := Ask(rid, forAddress, which);
    ReachableNext(vid, c, s);
    c' := Advance(c, vid, s);
  }

  lemma RoutesDeleted(c: Config, vid: nat, rid: nat, dump: seq<FlowStats>) returns (c': Config)
    requires Reachable(vid, c) && Enabled(c, vid, Answer(rid, dump)) && !c.pending[rid].forAddress
    ensures var which := c.pending[rid].which;
      && c'.t == Next(c.t, vid, DeleteRoute(which, dump))
      && c'.table == ApplyMods(c.table, RouteStatsMods(vid, SelectRoutes(vid, which, dump)))
    ensures Reachable(vid, c') && c'.active == c.active
    ensures forall other :: other in c.pending && other != rid ==> StillPending(c, c', other)
  {
    var s := Answer(rid, dump);
    ReachableNext(vid, c, s);
    c' := Advance(c, vid, s);
  }

  /** The route's gateway lies in no registered network. */
  ghost predicate Stranded(t: Tables, p: Prefix) {
    p in t.routes && AddressOf(t.addrs, t.routes[p].gateway).None?
  }

  /**
   While the deletion of the only address waits for its report, a default route through that address
   is accepted. The skip list does not know of it, and the address goes.
   */
  lemma StaleSkipList(vid: nat, gw: Ip, len: PrefixLen, gateway: Ip)
    requires gateway != gw && Covers(NetOf(gw, len), gateway)
    ensures exists c :: Reachable(vid, c) && Settled(c) && Stranded(c.t, DEFAULT_NET)
  {
    var st := FlowStats(LearnKey(vid, NetOf(gw, len)).priority, AddressCookie(vid, 1));
    var c1 := AfterOneAddress(vid, gw, len);
    OneAddressReachable(vid, gw, len);
    AddressEntryReported(c1, vid, gw, len);
    var c2 := QuestionAsked(c1, vid, 0, true, Some(1));
    NothingSkipped(c1.t, Some(1));
    var c3 := DefaultRouteAdded(c2, vid, gw, len, gateway);
    var c4 := DeletionBegins(c3, vid, st);
    var c7 := AddressGoes(c4, vid, gw, len);
  }

  lemma NothingSkipped(t: Tables, which: Option<nat>)
    requires t.routes == map[]
    ensures SkipIds(t, which) == {}
  {
  }

  /** The report lists one entry of address 1. */
  lemma DeletionBegins(c: Config, vid: nat, st: FlowStats) returns (c': Config)
    requires Reachable(vid, c) && 0 in c.pending && c.active == map[]
    requires c.pending[0].forAddress && c.pending[0].which == Some(1) && c.pending[0].skip == {}
    requires st in c.pending[0].seen && st.cookie == AddressCookie(vid, 1)
    ensures Reachable(vid, c') && c'.t == c.t && c'.active == map[0 := Deletion(c.pending[0], None, [1])]
  {
    ReachableNext(vid, c, Answer(0, [st]));
    c' := Advance(c, vid, Answer(0, [st]));
    OneEntryListed(vid, st);
  }

  lemma AddressGoes(c: Config, vid: nat, gw: Ip, len: PrefixLen) returns (c': Config)
    requires Reachable(vid, c) && c.t.addrs == OneAddress(gw, len).addrs && DEFAULT_NET in c.t.routes
    requires 0 in c.active && c.active == map[0 := Deletion(c.active[0].r, None, [1])]
    ensures Reachable(vid, c') && Settled(c') && Stranded(c'.t, DEFAULT_NET)
  {
    OnlyAddress(gw, len);
    ReachableNext(vid, c, Strike(0));
    var c1 := Advance(c, vid, Strike(0));
    assert c1.active[0] == Deletion(c.active[0].r, Some(1), []);
    ReachableNext(vid, c1, Forget(0));
    var c2 := Advance(c1, vid, Forget(0));
    ReachableNext(vid, c2, Finish(0));
    c' := Advance(c2, vid, Finish(0));
    OnlyAddressDeleted(c1.t, gw, len, DEFAULT_NET);
  }

  lemma OnlyAddress(gw: Ip, len: PrefixLen)
    ensures OneAddress(gw, len).addrs == map[NetOf(gw, len) := Address(1, NetOf(gw, len), gw)]
    ensures HasId(OneAddress(gw, len).addrs, 1)
  {
    assert NetOf(gw, len) in OneAddress(gw, len).addrs;
  }

  lemma AddressEntryReported(c: Config, vid: nat, gw: Ip, len: PrefixLen)
    requires c.t == OneAddress(gw, len) && Good(c, vid)
    ensures FlowStats(LearnKey(vid, NetOf(gw, len)).priority, AddressCookie(vid, 1)) in Stats(c.table)
  {
    InstalledForAddress(c.t, vid, c.table, NetOf(gw, len));
  }

  lemma OneEntryListed(vid: nat, st: FlowStats)
    requires st.cookie == AddressCookie(vid, 1)
    ensures DeletedIds(vid, Some(1), {}, [st]) == [1]
  {
    CookiePartition(vid, 1, 1);
    assert [st][..0] == [];
    assert FilterAddresses(vid, Some(1), {}, [st]) == [st];
    assert AddressStatIds([st]) == AddressStatIds([st][..0]) + [1];
  }

  lemma OnlyAddressDeleted(t: Tables, gw: Ip, len: PrefixLen, p: Prefix)
    requires t.addrs == OneAddress(gw, len).addrs && p in t.routes
    ensures Stranded(WithoutAddresses(t, {1}), p)
  {
    assert t.addrs == map[NetOf(gw, len) := Address(1, NetOf(gw, len), gw)];
    assert AddressesWithout(t.addrs, {1}) == map[];
  }

  /** The switch drops what the default route is to forward. */
  ghost predicate DefaultOverwritten(c: Config, vid: nat) {
    && Valid(c.t)
    && DEFAULT_NET in c.t.routes
    && Holds(c.table, DefaultKey(vid), Some(DropFlow(vid)))
  }

  /**
   Two deletions of all routes wait at the same time, and a new default route is registered between
   their ends: the second one acts on the entry of the first default route and overwrites the new
   one's.
   */
  lemma StaleReport(vid: nat, gw: Ip, len: PrefixLen, gateway: Ip)
    requires gateway != gw && Covers(NetOf(gw, len), gateway)
    ensures exists c :: Reachable(vid, c) && Settled(c) && DefaultOverwritten(c, vid)
  {
    var c1 := AfterOneAddress(vid, gw, len);
    OneAddressReachable(vid, gw, len);
    var c2 := DefaultRouteAdded(c1, vid, gw, len, gateway);
    DefaultReported(c2, vid);
    var c3 := QuestionAsked(c2, vid, 0, false, None);
    var c4 := QuestionAsked(c3, vid, 1, false, None);
    var c7 := BothAnswered(c4, vid, gw, len, gateway);
  }

  lemma DefaultReported(c: Config, vid: nat)
    requires DEFAULT_NET in c.t.routes && c.t.routes[DEFAULT_NET].id == 1
    requires Holds(c.table, DefaultKey(vid), Some(RouteFlow(vid, c.t.routes[DEFAULT_NET])))
    ensures OldDefaultStat(vid) in Stats(c.table)
  {
  }

  /** A deletion of all routes waits that may still be told of the first default route's entry. */
  predicate WaitsForOldReport(c: Config, vid: nat, rid: nat) {
    && rid in c.pending
    && !c.pending[rid].forAddress
    && c.pending[rid].which == None
    && OldDefaultStat(vid) in c.pending[rid].seen
  }

  lemma BothAnswered(c4: Config, vid: nat, gw: Ip, len: PrefixLen, gateway: Ip) returns (c7: Config)
    requires Reachable(vid, c4) && c4.t == WithRoute(OneAddress(gw, len), true, DEFAULT_NET, gateway)
    requires WaitsForOldReport(c4, vid, 0) && WaitsForOldReport(c4, vid, 1) && c4.active == map[]
    requires gateway != gw && Covers(NetOf(gw, len), gateway)
    ensures Reachable(vid, c7) && Settled(c7) && DefaultOverwritten(c7, vid)
  {
    var st := OldDefaultStat(vid);
    var c5 := RoutesDeleted(c4, vid, 0, [st]);
    OneRouteDeleted(c4.t, vid, gw, len, gateway);
    var c6 := DefaultRouteAdded(c5, vid, gw, len, gateway);
    c7 := RoutesDeleted(c6, vid, 1, [st]);
    SecondDeletionOverwrites(c6, vid, gw, len, gateway);
  }

  /** The entry of the first default route. */
  function OldDefaultStat(vid: nat): FlowStats {
    FlowStats(DefaultKey(vid).priority, RouteCookie(vid, 1))
  }

  lemma OldStatSelected(vid: nat)
    ensures SelectRoutes(vid, None, [OldDefaultStat(vid)]) == [OldDefaultStat(vid)]
    ensures RouteStatIds([OldDefaultStat(vid)]) == {1}
  {
    CookiePartition(vid, 1, 1);
    assert [OldDefaultStat(vid)][..0] == [];
  }

  lemma OneRouteDeleted(t: Tables, vid: nat, gw: Ip, len: PrefixLen, gateway: Ip)
    requires t == WithRoute(OneAddress(gw, len), true, DEFAULT_NET, gateway)
    ensures Next(t, vid, DeleteRoute(None, [OldDefaultStat(vid)])) == OneAddress(gw, len).(nextRoute := 2)
  {
    OldStatSelected(vid);
    assert RoutesWithout(t.routes, {1}) == map[];
  }

  lemma SecondDeletionOverwrites(c: Config, vid: nat, gw: Ip, len: PrefixLen, gateway: Ip)
    requires c.t == WithRoute(OneAddress(gw, len).(nextRoute := 2), true, DEFAULT_NET, gateway)
    requires gateway != gw && Covers(NetOf(gw, len), gateway)
    ensures var st := OldDefaultStat(vid);
      && Valid(Next(c.t, vid, DeleteRoute(None, [st])))
      && DEFAULT_NET in Next(c.t, vid, DeleteRoute(None, [st])).routes
      && Holds(ApplyMods(c.table, RouteStatsMods(vid, SelectRoutes(vid, None, [st]))), DefaultKey(vid),
               Some(DropFlow(vid)))
  {
    var st := OldDefaultStat(vid);
    OldStatSelected(vid);
    CookiePartition(vid, 1, 1);
    assert RoutesWithout(c.t.routes, {1}) == c.t.routes;
    TwiceRoutedValid(gw, len, gateway);
    assert IsDefaultStat(vid, st) && st in [st];
    assert HasDefaultStat(vid, [st]);
    ApplyRouteStats(c.table, vid, [st], DefaultKey(vid));
  }

  lemma TwiceRoutedValid(gw: Ip, len: PrefixLen, gateway: Ip)
    requires gateway != gw && Covers(NetOf(gw, len), gateway)
    ensures Valid(WithRoute(OneAddress(gw, len).(nextRoute := 2), true, DEFAULT_NET, gateway))
  {
    var t := OneAddress(gw, len).(nextRoute := 2);
    AddAddressValid(EMPTY_TABLES, gw, len);
    DefaultAccepted(t, gw, len, gateway);
    SetRouteStepValid(t, DefaultRoute, gateway);
  }

  // ---------------------------------------------------------------- the pause inside an address deletion

  /** No modification adds an entry with this cookie. */
  predicate AddsNo(mods: seq<FlowMod>, cookie: nat) {
    forall i :: 0 <= i < |mods| && mods[i].Add? ==> mods[i].flow.cookie != cookie
  }

  lemma {:induction false} DeleteCommutes(table: FlowTable, mods: seq<FlowMod>, cookie: nat)
    requires AddsNo(mods, cookie)
    ensures ApplyMods(ApplyMod(table, Delete(cookie)), mods) == ApplyMod(ApplyMods(table, mods), Delete(cookie))
  {
    if mods != [] {
      var front, last := mods[..|mods| - 1], mods[|mods| - 1];
      DeleteCommutes(table, front, cookie);
      assert last.Add? ==> last.flow.cookie != cookie;
      DeleteCommutesOnce(ApplyMods(table, front), last, cookie);
    }
  }

  lemma DeleteCommutesOnce(table: FlowTable, mod: FlowMod, cookie: nat)
    requires mod.Add? ==> mod.flow.cookie != cookie
    ensures ApplyMod(ApplyMod(table, Delete(cookie)), mod) == ApplyMod(ApplyMod(table, mod), Delete(cookie))
  {
  }

  lemma {:induction false} GatewayModsAddNo(t: Tables, vid: nat, order: seq<Prefix>, hop: Hop, id: nat)
    requires RoutesValid(t.routes, t.nextRoute) && IdFits(id) && forall p :: p in order ==> p in t.routes
    ensures AddsNo(GatewayMods(t, vid, order, hop), AddressCookie(vid, id))
  {
    if order != [] {
      var p := order[|order| - 1];
      GatewayModsAddNo(t, vid, order[..|order| - 1], hop, id);
      CookiePartition(vid, id, t.routes[p].id);
    }
  }

  lemma {:induction false} RouteStatsAddNo(vid: nat, stats: seq<FlowStats>, id: nat)
    requires IdFits(id)
    ensures AddsNo(RouteStatsMods(vid, stats), AddressCookie(vid, id))
  {
    if stats != [] {
      RouteStatsAddNo(vid, stats[..|stats| - 1], id);
      CookiePartition(vid, id, 1);
    }
  }

  lemma {:induction false} AddressDeletesAddNo(vid: nat, ids: seq<nat>, cookie: nat)
    ensures AddsNo(AddressDeletes(vid, ids), cookie)
  {
    if ids != [] {
      AddressDeletesAddNo(vid, ids[..|ids| - 1], cookie);
    }
  }

  /** An ARP packet from a host, not a gateway, of this address's network. */
  ghost predicate FromHostOf(t: Tables, e: Event, id: nat) {
    e.Arp? && OwnedBy(t.addrs, e.ip, {id}) && !IsGateway(t, e.ip)
  }

  lemma EmitsNoOwnCookie(t: Tables, vid: nat, id: nat, e: Event, mods: seq<FlowMod>)
    requires Valid(t) && HasId(t.addrs, id) && Admissible(t, e) && Emits(t, vid, e, mods)
    requires !FromHostOf(t, e, id)
    ensures AddsNo(mods, AddressCookie(vid, id))
  {
    match e
    case SetAddress(gw, len) => CookiePartition(vid, id, 1);
    case SetRoute(d, gateway) => CookiePartition(vid, id, t.nextRoute);
    case DeleteAddress(which, skip, dump) =>
      AddressDeletesAddNo(vid, DeletedIds(vid, which, skip, dump), AddressCookie(vid, id));
    case DeleteRoute(which, dump) => RouteStatsAddNo(vid, SelectRoutes(vid, which, dump), id);
    case Arp(ip, hop) =>
      if AddressOf(t.addrs, ip).Some? && IsGateway(t, ip) {
        var order :| RefreshOrder(t, ip, hop, order) && mods == GatewayMods(t, vid, order, hop);
        GatewayModsAddNo(t, vid, order, hop, id);
      }
  }

  /** The entries that carry none of the ids' cookies. */
  function Purged(table: FlowTable, vid: nat, ids: seq<nat>): FlowTable {
    map k | k in table && !HasAddressCookie(vid, ids, table[k].cookie) :: table[k]
  }

  predicate HasAddressCookie(vid: nat, ids: seq<nat>, cookie: nat) {
    exists id :: id in ids && cookie == AddressCookie(vid, id)
  }

  lemma {:induction false} DeletesPurge(table: FlowTable, vid: nat, ids: seq<nat>)
    ensures ApplyMods(table, AddressDeletes(vid, ids)) == Purged(table, vid, ids)
  {
    if ids != [] {
      var front, last := ids[..|ids| - 1], ids[|ids| - 1];
      DeletesPurge(table, vid, front);
      ApplyAppended(table, AddressDeletes(vid, front), Delete(AddressCookie(vid, last)));
      assert ids == front + [last];
      assert forall id :: id in ids <==> id in front || id == last;
    }
  }

  /** The switch after a handler ran in the pause at address `id` and the rest of the list was gone through. */
  function AfterPause(table: FlowTable, vid: nat, id: nat, mods: seq<FlowMod>, rest: seq<nat>): FlowTable {
    ApplyMods(ApplyMods(ApplyMod(table, Delete(AddressCookie(vid, id))), mods), AddressDeletes(vid, rest))
  }

  /**
   The deletion of an address that has suspended packets pauses between removing the address's
   entries and the address itself, with `rest` of its list still to go through. If a handler runs in
   this pause that makes no route depend on a listed address, the switch agrees with the tables at the
   end if and only if the handler learned no host of the address or the address has another entry on
   the list.
   */
  lemma PauseExact(t: Tables, vid: nat, id: nat, rest: seq<nat>, e: Event, mods: seq<FlowMod>, table: FlowTable)
    requires Valid(t) && HasId(t.addrs, id) && Agrees(t, vid, table) && !e.DeleteAddress?
    requires Admissible(t, e) && Emits(t, vid, e, mods) && Safe(t, vid, e) && Reported(t, vid, e)
    requires forall i :: i in [id] + rest ==> IdFits(i) && !Related(Next(t, vid, e), i)
    ensures var t' := WithoutAddresses(Next(t, vid, e), Elements([id] + rest));
      Agrees(t', vid, AfterPause(table, vid, id, mods, rest)) <==> !FromHostOf(t, e, id) || id in rest
  {
    var full := ApplyMods(table, mods);
    StepKeeps(t, vid, e, mods, table);
    DeleteAddressesKeep(Next(t, vid, e), vid, [id] + rest, full);
    DeletesPurge(full, vid, [id] + rest);
    if FromHostOf(t, e, id) {
      LearnedInPause(WithoutAddresses(Next(t, vid, e), Elements([id] + rest)), vid, id, rest, e.ip, e.hop, table);
    } else {
      EmitsNoOwnCookie(t, vid, id, e, mods);
      DeleteCommutes(table, mods, AddressCookie(vid, id));
      DeletesPurge(ApplyMod(full, Delete(AddressCookie(vid, id))), vid, rest);
      PurgeFirst(full, vid, id, rest);
    }
  }

  lemma PurgeFirst(table: FlowTable, vid: nat, id: nat, rest: seq<nat>)
    ensures Purged(ApplyMod(table, Delete(AddressCookie(vid, id))), vid, rest) == Purged(table, vid, [id] + rest)
  {
    assert forall i :: i in [id] + rest <==> i == id || i in rest;
  }

  /** `t` are the tables at the end. */
  lemma LearnedInPause(t: Tables, vid: nat, id: nat, rest: seq<nat>, ip: Ip, hop: Hop, table: FlowTable)
    requires Agrees(t, vid, Purged(ApplyMods(table, HostMods(vid, id, ip, hop)), vid, [id] + rest))
    ensures Agrees(t, vid, AfterPause(table, vid, id, HostMods(vid, id, ip, hop), rest)) <==> id in rest
  {
    var mods := HostMods(vid, id, ip, hop);
    var k, f, struck := mods[0].key, mods[0].flow, ApplyMod(table, Delete(AddressCookie(vid, id)));
    assert mods == [mods[0]];
    ApplyOne(table, mods[0]);
    ApplyOne(struck, mods[0]);
    DeletesPurge(struck[k := f], vid, rest);
    PurgeLearned(table, vid, id, rest, k, f);
    if id !in rest {
      OneTable(t, vid, Purged(table[k := f], vid, [id] + rest), Purged(struck[k := f], vid, rest), k);
    }
  }

  lemma PurgeLearned(table: FlowTable, vid: nat, id: nat, rest: seq<nat>, k: FlowKey, f: Flow)
    requires f.cookie == AddressCookie(vid, id)
    ensures var struck := ApplyMod(table, Delete(AddressCookie(vid, id)))[k := f];
      var all := Purged(table[k := f], vid, [id] + rest);
      if id in rest then Purged(struck, vid, rest) == all else k in Purged(struck, vid, rest) && k !in all
  {
    assert forall i :: i in [id] + rest <==> i == id || i in rest;
  }

  /** Two switches that agree with the same tables hold the same entries. */
  lemma OneTable(t: Tables, vid: nat, a: FlowTable, b: FlowTable, k: FlowKey)
    requires Agrees(t, vid, a) && (k in a <==> k !in b)
    ensures !Agrees(t, vid, b)
  {
    if IsRouteKey(vid, k) {
      assert Holds(a, k, ExpectedRoute(t.routes, vid, k));
      assert !Holds(b, k, ExpectedRoute(t.routes, vid, k));
    } else {
      assert Holds(a, k, ExpectedAddress(t.addrs, t.learned, vid, k));
      assert !Holds(b, k, ExpectedAddress(t.addrs, t.learned, vid, k));
    }
  }

  // ---------------------------------------------------------------- destinations of length 0

  /** The route for a destination of length 0 that is not spelled "0.0.0.0/0". */
  function ZeroLengthRoute(t: Tables, gateway: Ip): Route {
    Route(t.nextRoute, false, DEFAULT_NET, gateway, None)
  }

  /** The packet is for a host of a registered network of positive length, MAC not yet learned. */
  ghost predicate ForUnknownHost(t: Tables, src: Ip, dst: Ip) {
    Decide(t, src, dst).UnknownHost? && Decide(t, src, dst).a.net.len > 0
  }

  /**
   Such a route shares its priority with host learning. With its entry installed the switch selects
   an entry for a packet if and only if the packet is not for an unknown host; then it does what the
   tables prescribe, or sends a packet without any other destination to the controller.
   */
  lemma ZeroLengthDestinationTies(t: Tables, vid: nat, gateway: Ip, src: Ip, dst: Ip, table: FlowTable)
    requires Valid(t) && Agrees(t, vid, table)
    ensures var table' := ApplyMods(table, RouteMods(vid, ZeroLengthRoute(t, gateway)));
      && ((exists k :: Selected(table', src, dst, k)) <==> !ForUnknownHost(t, src, dst))
      && forall k :: Selected(table', src, dst, k) ==>
           table'[k].action == if Decide(t, src, dst).DefaultRouteOrDrop? then ToController
                               else Prescribed(t, src, dst)
  {
    var r := ZeroLengthRoute(t, gateway);
    var zero := RouteKey(vid, r);
    var table' := ApplyMods(table, RouteMods(vid, r));
    var d := Decide(t, src, dst);
    var w := DecisionKey(vid, dst, d);
    ApplyOne(table, RouteMods(vid, r)[0]);
    assert table' == table[zero := RouteFlow(vid, r)];
    ApplyMaskEnds(dst);
    assert Matches(zero, src, dst);
    DecideJustified(t, src, dst);
    DecisionInstalled(t, vid, table, src, dst, d);
    DecisionMatches(t, vid, src, dst, d);
    forall k | k in table' && Matches(k, src, dst) && k != zero && k != w
      ensures k.priority < w.priority
    {
      EntryLoses(t, vid, src, dst, table, k);
    }
    ZeroAgainstWinner(t, vid, src, dst, zero);
    if ForUnknownHost(t, src, dst) {
      assert w in table' && w != zero && w.priority == zero.priority;
    } else if w.priority > zero.priority {
      assert Selected(table', src, dst, w);
    } else {
      assert Selected(table', src, dst, zero);
    }
  }

  lemma ZeroAgainstWinner(t: Tables, vid: nat, src: Ip, dst: Ip, zero: FlowKey)
    requires Valid(t)
    requires zero == DstKey(PRIORITY_STATIC_ROUTING + if vid != 0 then PRIORITY_VLAN_SHIFT else 0, DEFAULT_NET)
    ensures var d := Decide(t, src, dst);
      var w := DecisionKey(vid, dst, d);
      match d
      case UnknownHost(a) => w.priority == zero.priority && (w == zero <==> a.net.len == 0)
      case DefaultRouteOrDrop => w.priority < zero.priority
      case _ => w.priority > zero.priority
  {
    var d := Decide(t, src, dst);
    DecideJustified(t, src, dst);
    if d.UnknownHost? && d.a.net.len == 0 {
      ApplyMaskEnds(d.a.gw);
    }
  }
}
