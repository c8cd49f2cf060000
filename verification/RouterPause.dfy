/**
 The switch while deletions of addresses pause: the loop of `_delete_address_data` removes an
 address's entries, ends the threads of the packets suspended for its network, which lets other
 handlers run, and only then removes the address.
 */
module RouterPause {
  import opened Wrappers
  import opened Cidr
  import opened RouterTables
  import opened RouterSteps
  import opened RouterEvents

  // ---------------------------------------------------------------- tables that differ in some entries

  /** `table` is `full` without the entries under `gone`, and with `extra` on top. */
  predicate Shows(table: FlowTable, full: FlowTable, gone: set<FlowKey>, extra: FlowTable) {
    table == (full - gone) + extra
  }

  lemma AddShows(table: FlowTable, full: FlowTable, gone: set<FlowKey>, extra: FlowTable, k: FlowKey, f: Flow)
    requires Shows(table, full, gone, extra) && k !in gone
    ensures Shows(table[k := f], full[k := f], gone, extra - {k})
  {
  }

  lemma DropShows(table: FlowTable, full: FlowTable, gone: set<FlowKey>, extra: FlowTable, k: FlowKey)
    requires Shows(table, full, gone, extra)
    ensures Shows(table - {k}, full - {k}, gone, extra - {k})
  {
  }

  lemma DeleteShows(table: FlowTable, full: FlowTable, gone: set<FlowKey>, extra: FlowTable, cookie: nat)
    requires Shows(table, full, gone, extra) && extra.Keys !! full.Keys
    ensures Shows(ApplyMod(table, Delete(cookie)), ApplyMod(full, Delete(cookie)), gone,
                  ApplyMod(extra, Delete(cookie)))
  {
  }

  /** The modifications touch neither `gone` nor `extra`. */
  predicate Outside(mods: seq<FlowMod>, gone: set<FlowKey>, extra: FlowTable) {
    forall i :: 0 <= i < |mods| ==> OutsideOne(mods[i], gone, extra)
  }

  predicate OutsideOne(mod: FlowMod, gone: set<FlowKey>, extra: FlowTable) {
    match mod
    case Add(k, _) => k !in gone && k !in extra
    case Delete(cookie) => forall k :: k in extra ==> extra[k].cookie != cookie
  }

  lemma {:induction false} ModsShow(table: FlowTable, full: FlowTable, gone: set<FlowKey>, extra: FlowTable,
                                    mods: seq<FlowMod>)
    requires Shows(table, full, gone, extra) && extra.Keys !! full.Keys && Outside(mods, gone, extra)
    ensures Shows(ApplyMods(table, mods), ApplyMods(full, mods), gone, extra)
    ensures extra.Keys !! ApplyMods(full, mods).Keys
  {
    if mods != [] {
      var front, last := mods[..|mods| - 1], mods[|mods| - 1];
      ModsShow(table, full, gone, extra, front);
      assert OutsideOne(last, gone, extra);
      ModShows(ApplyMods(table, front), ApplyMods(full, front), gone, extra, last);
    }
  }

  lemma ModShows(table: FlowTable, full: FlowTable, gone: set<FlowKey>, extra: FlowTable, mod: FlowMod)
    requires Shows(table, full, gone, extra) && extra.Keys !! full.Keys && OutsideOne(mod, gone, extra)
    ensures Shows(ApplyMod(table, mod), ApplyMod(full, mod), gone, extra)
    ensures extra.Keys !! ApplyMod(full, mod).Keys
  {
    match mod
    case Add(k, f) =>
      AddShows(table, full, gone, extra, k, f);
      assert extra - {k} == extra;
    case Delete(cookie) =>
      DeleteShows(table, full, gone, extra, cookie);
      assert ApplyMod(extra, Delete(cookie)) == extra;
  }

  // ---------------------------------------------------------------- what deletions take away and leave behind

  /** The three keys of an address. */
  function KeysOf(vid: nat, a: Address): set<FlowKey> {
    {LearnKey(vid, a.net), SelfKey(vid, a.gw), SwitchKey(vid, a.net)}
  }

  function OwnKeys(addrs: map<Prefix, Address>, vid: nat, ids: set<nat>): set<FlowKey> {
    set p, k | p in addrs && addrs[p].id in ids && k in KeysOf(vid, addrs[p]) :: k
  }

  /** A host's entry that carries the id of an address that is gone. */
  datatype Stray = Stray(id: nat, hop: Hop)

  function StrayFlow(vid: nat, s: Stray): Flow {
    Flow(AddressCookie(vid, s.id), IDLE_TIMEOUT, Forward(s.hop))
  }

  function StrayFlows(vid: nat, strays: map<Ip, Stray>): FlowTable {
    map ip | ip in strays :: HostKey(vid, ip) := StrayFlow(vid, strays[ip])
  }

  /** The learned hosts of the address with this id. */
  ghost function HostsOf(t: Tables, id: nat): set<Ip> {
    set ip | ip in t.learned && OwnedBy(t.addrs, ip, {id})
  }

  /** The tables once the entries of an address are removed: its hosts are no longer learned. */
  ghost function Struck(t: Tables, id: nat): Tables {
    t.(learned := t.learned - HostsOf(t, id))
  }

  /**
   The switch holds what the tables call for, except that the entries of the addresses in `paused`
   are gone and those in `strays` are still there.
   */
  ghost predicate PausedAgrees(t: Tables, vid: nat, paused: set<nat>, strays: map<Ip, Stray>, table: FlowTable) {
    exists full :: PausedFrom(t, vid, paused, strays, table, full)
  }

  ghost predicate PausedFrom(t: Tables, vid: nat, paused: set<nat>, strays: map<Ip, Stray>, table: FlowTable,
                             full: FlowTable)
  {
    Agrees(t, vid, full) && Shows(table, full, OwnKeys(t.addrs, vid, paused), StrayFlows(vid, strays))
  }

  /** A stray's address is gone for good, and its host was not learned again. */
  ghost predicate StraysOk(t: Tables, strays: map<Ip, Stray>) {
    forall ip :: ip in strays ==>
      && ip !in t.learned
      && IdFits(strays[ip].id)
      && strays[ip].id < t.nextAddr
      && !HasId(t.addrs, strays[ip].id)
  }

  /** Without pauses and strays this is agreement. */
  lemma NothingPaused(t: Tables, vid: nat, table: FlowTable)
    ensures PausedAgrees(t, vid, {}, map[], table) <==> Agrees(t, vid, table)
  {
    assert OwnKeys(t.addrs, vid, {}) == {} && StrayFlows(vid, map[]) == map[];
    assert (table - {}) + map[] == table;
    if Agrees(t, vid, table) {
      assert PausedFrom(t, vid, {}, map[], table, table);
    }
    if full :| PausedFrom(t, vid, {}, map[], table, full) {
      assert (full - {}) + map[] == full;
    }
  }

  // ---------------------------------------------------------------- kinds of keys

  predicate IsHostKey(vid: nat, k: FlowKey) {
    k.m.dst.Some? && k == HostKey(vid, k.m.dst.value.addr)
  }

  lemma HostKeysApart(addrs: map<Prefix, Address>, vid: nat, ids: set<nat>, ip: Ip)
    ensures HostKey(vid, ip) !in OwnKeys(addrs, vid, ids) && !IsRouteKey(vid, HostKey(vid, ip))
  {
  }

  lemma StrayKeys(vid: nat, strays: map<Ip, Stray>, k: FlowKey)
    ensures k in StrayFlows(vid, strays) <==> k.m.dst.Some? && k.m.dst.value.addr in strays && IsHostKey(vid, k)
    ensures k in StrayFlows(vid, strays) ==>
      StrayFlows(vid, strays)[k] == StrayFlow(vid, strays[k.m.dst.value.addr])
  {
    if k.m.dst.Some? && k.m.dst.value.addr in strays && IsHostKey(vid, k) {
      assert HostKey(vid, k.m.dst.value.addr) in StrayFlows(vid, strays);
    }
  }

  lemma RouteKeysApart(addrs: map<Prefix, Address>, vid: nat, ids: set<nat>, strays: map<Ip, Stray>, k: FlowKey)
    requires IsRouteKey(vid, k)
    ensures k !in OwnKeys(addrs, vid, ids) && k !in StrayFlows(vid, strays)
  {
    StrayKeys(vid, strays, k);
    forall p | p in addrs
      ensures k !in KeysOf(vid, addrs[p])
    {
      RouteKeyNotOf(vid, addrs[p], k);
    }
  }

  lemma RouteKeyNotOf(vid: nat, a: Address, k: FlowKey)
    requires IsRouteKey(vid, k)
    ensures k !in KeysOf(vid, a)
  {
  }

  /** No stray's entry is one the tables call for. */
  lemma StraysApart(t: Tables, vid: nat, strays: map<Ip, Stray>, full: FlowTable)
    requires Agrees(t, vid, full) && StraysOk(t, strays)
    ensures StrayFlows(vid, strays).Keys !! full.Keys
  {
    forall k | k in StrayFlows(vid, strays)
      ensures k !in full
    {
      StrayKeys(vid, strays, k);
      var ip := k.m.dst.value.addr;
      HostKeysApart(t.addrs, vid, {}, ip);
      assert Holds(full, k, ExpectedAddress(t.addrs, t.learned, vid, k));
    }
  }

  // ---------------------------------------------------------------- entries by cookie

  /** The entries with an address's cookie are its own and those of its hosts. */
  lemma CookieOwners(t: Tables, vid: nat, id: nat, k: FlowKey)
    requires AddrsValid(t.addrs, t.nextAddr) && IdFits(id)
    requires ExpectedAddress(t.addrs, t.learned, vid, k).Some?
    ensures ExpectedAddress(t.addrs, t.learned, vid, k).value.cookie == AddressCookie(vid, id)
       <==> k in OwnKeys(t.addrs, vid, {id}) || (IsHostKey(vid, k) && k.m.dst.value.addr in HostsOf(t, id))
  {
    if ExpectedAddress(t.addrs, t.learned, vid, k).value.cookie == AddressCookie(vid, id) {
      CookieOwner(t, vid, id, k);
    } else if k in OwnKeys(t.addrs, vid, {id}) {
      var p :| p in t.addrs && t.addrs[p].id == id && k in KeysOf(vid, t.addrs[p]);
      GatewayInOwnNet(t.addrs, t.nextAddr, p);
    }
  }

  lemma CookieOwner(t: Tables, vid: nat, id: nat, k: FlowKey)
    requires AddrsValid(t.addrs, t.nextAddr) && IdFits(id)
    requires ExpectedAddress(t.addrs, t.learned, vid, k).Some?
    requires ExpectedAddress(t.addrs, t.learned, vid, k).value.cookie == AddressCookie(vid, id)
    ensures k in OwnKeys(t.addrs, vid, {id}) || (IsHostKey(vid, k) && k.m.dst.value.addr in HostsOf(t, id))
  {
    var p := k.m.dst.value;
    if (k == SwitchKey(vid, p) || k == LearnKey(vid, p)) && p in t.addrs {
      assert k in KeysOf(vid, t.addrs[p]);
    } else {
      AddressOfCovers(t.addrs, t.nextAddr, p.addr);
      var a := AddressOf(t.addrs, p.addr).value;
      if k == SelfKey(vid, p.addr) && a.gw == p.addr {
        assert k in KeysOf(vid, t.addrs[a.net]);
      }
    }
  }

  /** The keys under which the switch holds the cookie of a registered or unregistered address. */
  lemma CookieKeys(t: Tables, vid: nat, id: nat, full: FlowTable, k: FlowKey)
    requires Valid(t) && Agrees(t, vid, full) && IdFits(id) && k in full
    ensures full[k].cookie == AddressCookie(vid, id)
       <==> k in OwnKeys(t.addrs, vid, {id}) || (IsHostKey(vid, k) && k.m.dst.value.addr in HostsOf(t, id))
  {
    if IsRouteKey(vid, k) {
      assert Holds(full, k, ExpectedRoute(t.routes, vid, k));
      RouteCookiesApart(t, vid, id, k);
      RouteKeysApart(t.addrs, vid, {id}, map[], k);
      if k.m.dst.Some? {
        HostKeysApart(t.addrs, vid, {id}, k.m.dst.value.addr);
      }
    } else {
      assert Holds(full, k, ExpectedAddress(t.addrs, t.learned, vid, k));
      CookieOwners(t, vid, id, k);
    }
  }

  function HostKeys(vid: nat, ips: set<Ip>): set<FlowKey> {
    set ip | ip in ips :: HostKey(vid, ip)
  }

  lemma HostKeysMember(vid: nat, ips: set<Ip>, k: FlowKey)
    ensures k in HostKeys(vid, ips) <==> IsHostKey(vid, k) && k.m.dst.value.addr in ips
  {
    if IsHostKey(vid, k) && k.m.dst.value.addr in ips {
      assert HostKey(vid, k.m.dst.value.addr) in HostKeys(vid, ips);
    }
  }

  lemma ForgottenHost(addrs: map<Prefix, Address>, learned: map<Ip, Hop>, vid: nat, ips: set<Ip>, k: FlowKey)
    ensures ExpectedAddress(addrs, learned - ips, vid, k)
         == if k in HostKeys(vid, ips) then None else ExpectedAddress(addrs, learned, vid, k)
  {
    HostKeysMember(vid, ips, k);
  }

  /** Forgetting hosts together with their entries keeps the agreement. */
  lemma ForgetHosts(t: Tables, vid: nat, ips: set<Ip>, full: FlowTable)
    requires Agrees(t, vid, full)
    ensures Agrees(t.(learned := t.learned - ips), vid, full - HostKeys(vid, ips))
  {
    var t', full' := t.(learned := t.learned - ips), full - HostKeys(vid, ips);
    forall k | IsRouteKey(vid, k)
      ensures Holds(full', k, ExpectedRoute(t'.routes, vid, k))
    {
      assert Holds(full, k, ExpectedRoute(t.routes, vid, k));
      RouteKeyNoHost(vid, ips, k);
    }
    forall k | !IsRouteKey(vid, k)
      ensures Holds(full', k, ExpectedAddress(t'.addrs, t'.learned, vid, k))
    {
      assert Holds(full, k, ExpectedAddress(t.addrs, t.learned, vid, k));
      ForgottenHost(t.addrs, t.learned, vid, ips, k);
    }
  }

  lemma RouteKeyNoHost(vid: nat, ips: set<Ip>, k: FlowKey)
    requires IsRouteKey(vid, k)
    ensures k !in HostKeys(vid, ips)
  {
    HostKeysMember(vid, ips, k);
    if k.m.dst.Some? {
      HostKeysApart(map[], vid, {}, k.m.dst.value.addr);
    }
  }

  // ---------------------------------------------------------------- the turns of the deletion loop

  function StraysWithout(strays: map<Ip, Stray>, id: nat): map<Ip, Stray> {
    map ip | ip in strays && strays[ip].id != id :: strays[ip]
  }

  lemma StrayFlowsWithout(vid: nat, strays: map<Ip, Stray>, id: nat)
    ensures ApplyMod(StrayFlows(vid, strays), Delete(AddressCookie(vid, id)))
         == StrayFlows(vid, StraysWithout(strays, id))
  {
    forall k
      ensures k in ApplyMod(StrayFlows(vid, strays), Delete(AddressCookie(vid, id)))
         <==> k in StrayFlows(vid, StraysWithout(strays, id))
    {
      StrayKeys(vid, strays, k);
      StrayKeys(vid, StraysWithout(strays, id), k);
    }
  }

  /** Removing the entries with an address's cookie, whether or not the address is registered. */
  lemma StrikeKeeps(t: Tables, vid: nat, paused: set<nat>, strays: map<Ip, Stray>, table: FlowTable, id: nat)
    requires Valid(t) && StraysOk(t, strays) && IdFits(id)
    requires PausedAgrees(t, vid, paused, strays, table)
    ensures Valid(Struck(t, id))
    ensures PausedAgrees(Struck(t, id), vid, paused + {id}, StraysWithout(strays, id),
                         ApplyMod(table, Delete(AddressCookie(vid, id))))
  {
    var full :| PausedFrom(t, vid, paused, strays, table, full);
    var full' := full - HostKeys(vid, HostsOf(t, id));
    ForgetHosts(t, vid, HostsOf(t, id), full);
    StruckValid(t, id);
    StraysApart(t, vid, strays, full);
    DeleteShows(table, full, OwnKeys(t.addrs, vid, paused), StrayFlows(vid, strays), AddressCookie(vid, id));
    StrayFlowsWithout(vid, strays, id);
    StruckEntries(t, vid, paused, id, full);
    assert PausedFrom(Struck(t, id), vid, paused + {id}, StraysWithout(strays, id),
                      ApplyMod(table, Delete(AddressCookie(vid, id))), full');
  }

  lemma StruckValid(t: Tables, id: nat)
    requires Valid(t)
    ensures Valid(Struck(t, id))
  {
  }

  lemma StruckEntries(t: Tables, vid: nat, paused: set<nat>, id: nat, full: FlowTable)
    requires Valid(t) && Agrees(t, vid, full) && IdFits(id)
    ensures ApplyMod(full, Delete(AddressCookie(vid, id))) - OwnKeys(t.addrs, vid, paused)
         == (full - HostKeys(vid, HostsOf(t, id))) - OwnKeys(t.addrs, vid, paused + {id})
  {
    forall k | k in full
      ensures full[k].cookie == AddressCookie(vid, id)
         <==> k in OwnKeys(t.addrs, vid, {id}) || k in HostKeys(vid, HostsOf(t, id))
    {
      CookieKeys(t, vid, id, full, k);
      HostKeysMember(vid, HostsOf(t, id), k);
    }
    OwnKeysUnion(t.addrs, vid, paused, {id});
  }

  lemma OwnKeysUnion(addrs: map<Prefix, Address>, vid: nat, ids: set<nat>, more: set<nat>)
    ensures OwnKeys(addrs, vid, ids + more) == OwnKeys(addrs, vid, ids) + OwnKeys(addrs, vid, more)
  {
  }

  lemma OwnKeysOfNone(addrs: map<Prefix, Address>, vid: nat, ids: set<nat>, id: nat)
    requires !HasId(addrs, id)
    ensures OwnKeys(addrs, vid, ids + {id}) == OwnKeys(addrs, vid, ids)
  {
  }

  /** An address that is not registered is not paused at. */
  lemma UnregisteredPause(t: Tables, vid: nat, paused: set<nat>, strays: map<Ip, Stray>, table: FlowTable, id: nat)
    requires !HasId(t.addrs, id)
    ensures PausedAgrees(t, vid, paused + {id}, strays, table) <==> PausedAgrees(t, vid, paused, strays, table)
  {
    OwnKeysOfNone(t.addrs, vid, paused, id);
    if full :| PausedFrom(t, vid, paused, strays, table, full) {
      assert PausedFrom(t, vid, paused + {id}, strays, table, full);
    }
    if full :| PausedFrom(t, vid, paused + {id}, strays, table, full) {
      assert PausedFrom(t, vid, paused, strays, table, full);
    }
  }

  /** After the entries are removed, the deletion pauses at the address if it is registered. */
  lemma StrikePauses(t: Tables, vid: nat, paused: set<nat>, strays: map<Ip, Stray>, table: FlowTable, id: nat)
    requires Valid(t) && StraysOk(t, strays) && IdFits(id)
    requires PausedAgrees(t, vid, paused, strays, table)
    ensures Valid(Struck(t, id))
    ensures PausedAgrees(Struck(t, id), vid, if HasId(t.addrs, id) then paused + {id} else paused,
                         StraysWithout(strays, id), ApplyMod(table, Delete(AddressCookie(vid, id))))
  {
    StrikeKeeps(t, vid, paused, strays, table, id);
    if !HasId(t.addrs, id) {
      UnregisteredPause(Struck(t, id), vid, paused, StraysWithout(strays, id),
                        ApplyMod(table, Delete(AddressCookie(vid, id))), id);
    }
  }

  /** The hosts that were learned in the pause stay on the switch when their address goes. */
  ghost function NewStrays(t: Tables, strays: map<Ip, Stray>, id: nat): map<Ip, Stray> {
    map ip | ip in strays.Keys + HostsOf(t, id) ::
      if ip in HostsOf(t, id) then Stray(id, t.learned[ip]) else strays[ip]
  }

  /** The address goes after the pause; its entries are gone already. */
  lemma ForgetKeeps(t: Tables, vid: nat, paused: set<nat>, strays: map<Ip, Stray>, table: FlowTable, id: nat)
    requires Valid(t) && StraysOk(t, strays) && IdFits(id) && id in paused && !Related(t, id)
    requires PausedAgrees(t, vid, paused, strays, table)
    ensures Valid(WithoutAddresses(t, {id}))
    ensures PausedAgrees(WithoutAddresses(t, {id}), vid, paused, NewStrays(t, strays, id), table)
  {
    var full :| PausedFrom(t, vid, paused, strays, table, full);
    var full' := ApplyMod(full, Delete(AddressCookie(vid, id)));
    DeleteAddressKeeps(t, vid, id, full);
    ForgottenEntries(t, vid, paused, strays, id, full);
    assert PausedFrom(WithoutAddresses(t, {id}), vid, paused, NewStrays(t, strays, id), table, full');
  }

  lemma ForgottenEntries(t: Tables, vid: nat, paused: set<nat>, strays: map<Ip, Stray>, id: nat, full: FlowTable)
    requires Valid(t) && StraysOk(t, strays) && Agrees(t, vid, full) && IdFits(id) && id in paused
    ensures (full - OwnKeys(t.addrs, vid, paused)) + StrayFlows(vid, strays)
         == (ApplyMod(full, Delete(AddressCookie(vid, id)))
             - OwnKeys(AddressesWithout(t.addrs, {id}), vid, paused)) + StrayFlows(vid, NewStrays(t, strays, id))
  {
    var less := full - OwnKeys(t.addrs, vid, paused);
    var less' := ApplyMod(full, Delete(AddressCookie(vid, id)))
                 - OwnKeys(AddressesWithout(t.addrs, {id}), vid, paused);
    var extra, extra' := StrayFlows(vid, strays), StrayFlows(vid, NewStrays(t, strays, id));
    var moved := HostKeys(vid, HostsOf(t, id));
    forall k
      ensures k in extra' <==> k in extra || k in moved
      ensures k in extra && k !in moved ==> extra'[k] == extra[k]
      ensures k in less' <==> k in less && k !in moved
      ensures k in moved ==> k in less && k !in extra && extra'[k] == less[k]
    {
      HostKeysMember(vid, HostsOf(t, id), k);
      ForgottenStray(t, vid, strays, id, full, k);
      ForgottenEntry(t, vid, paused, id, full, k);
    }
    MovedOver(less, extra, less', extra', moved);
  }

  lemma MovedOver(less: FlowTable, extra: FlowTable, less': FlowTable, extra': FlowTable, moved: set<FlowKey>)
    requires forall k :: k in extra' <==> k in extra || k in moved
    requires forall k :: k in extra && k !in moved ==> extra'[k] == extra[k]
    requires forall k :: k in less' <==> k in less && k !in moved
    requires forall k :: k in less' ==> less'[k] == less[k]
    requires forall k :: k in moved ==> k in less && k !in extra && extra'[k] == less[k]
    ensures less + extra == less' + extra'
  {
  }

  ghost predicate IsHostOf(t: Tables, vid: nat, id: nat, k: FlowKey) {
    IsHostKey(vid, k) && k.m.dst.value.addr in HostsOf(t, id)
  }

  lemma ForgottenStray(t: Tables, vid: nat, strays: map<Ip, Stray>, id: nat, full: FlowTable, k: FlowKey)
    requires StraysOk(t, strays) && Agrees(t, vid, full)
    ensures var extra, extra' := StrayFlows(vid, strays), StrayFlows(vid, NewStrays(t, strays, id));
      && (k in extra' <==> k in extra || IsHostOf(t, vid, id, k))
      && (k in extra && !IsHostOf(t, vid, id, k) ==> extra'[k] == extra[k])
      && (IsHostOf(t, vid, id, k) ==> k !in extra && k in full && extra'[k] == full[k])
  {
    StrayKeys(vid, strays, k);
    StrayKeys(vid, NewStrays(t, strays, id), k);
    if IsHostOf(t, vid, id, k) {
      InstalledForHost(t, vid, full, k.m.dst.value.addr);
    }
  }

  lemma ForgottenEntry(t: Tables, vid: nat, paused: set<nat>, id: nat, full: FlowTable, k: FlowKey)
    requires Valid(t) && Agrees(t, vid, full) && IdFits(id) && id in paused
    ensures var less := full - OwnKeys(t.addrs, vid, paused);
      var less' := ApplyMod(full, Delete(AddressCookie(vid, id)))
                   - OwnKeys(AddressesWithout(t.addrs, {id}), vid, paused);
      && (k in less' <==> k in less && !IsHostOf(t, vid, id, k))
      && (IsHostOf(t, vid, id, k) ==> k !in OwnKeys(t.addrs, vid, paused))
  {
    OwnKeysWithout(t.addrs, vid, paused, id, k);
    if k in full {
      CookieKeys(t, vid, id, full, k);
    }
    if IsHostOf(t, vid, id, k) {
      HostKeysApart(t.addrs, vid, paused, k.m.dst.value.addr);
    }
  }

  lemma OwnKeysWithout(addrs: map<Prefix, Address>, vid: nat, paused: set<nat>, id: nat, k: FlowKey)
    requires id in paused
    ensures k in OwnKeys(addrs, vid, paused)
       <==> k in OwnKeys(AddressesWithout(addrs, {id}), vid, paused) || k in OwnKeys(addrs, vid, {id})
  {
    var fewer := AddressesWithout(addrs, {id});
    if p :| p in addrs && addrs[p].id in paused && k in KeysOf(vid, addrs[p]) {
      if addrs[p].id != id {
        assert p in fewer && fewer[p] == addrs[p];
      }
    }
    if p :| p in fewer && fewer[p].id in paused && k in KeysOf(vid, fewer[p]) {
      assert p in addrs;
    }
  }

  /** Ending a pause without removing the registered address leaves that address without entries. */
  lemma AbandonedAddress(t: Tables, vid: nat, paused: set<nat>, strays: map<Ip, Stray>, table: FlowTable, id: nat,
                         fewer: set<nat>, strays': map<Ip, Stray>)
    requires Valid(t) && HasId(t.addrs, id) && id in paused && id !in fewer
    requires PausedAgrees(t, vid, paused, strays, table)
    ensures !PausedAgrees(t, vid, fewer, strays', table)
  {
    var p :| p in t.addrs && t.addrs[p].id == id;
    var k := LearnKey(vid, p);
    var full :| PausedFrom(t, vid, paused, strays, table, full);
    assert k in KeysOf(vid, t.addrs[p]);
    StrayKeys(vid, strays, k);
    assert k !in table;
    if full' :| PausedFrom(t, vid, fewer, strays', table, full') {
      InstalledForAddress(t, vid, full', p);
      LearnKeysApart(t.addrs, vid, fewer, p, t.nextAddr);
    }
  }

  lemma LearnKeysApart(addrs: map<Prefix, Address>, vid: nat, ids: set<nat>, p: Prefix, nextAddr: nat)
    requires AddrsValid(addrs, nextAddr) && p in addrs
    ensures LearnKey(vid, p) in OwnKeys(addrs, vid, ids) <==> addrs[p].id in ids
  {
    assert LearnKey(vid, p) in KeysOf(vid, addrs[p]);
  }

  // ---------------------------------------------------------------- other handlers in a pause

  /** An ARP packet from a host, not a gateway, of a registered network. */
  ghost predicate LearnsHost(t: Tables, e: Event) {
    e.Arp? && AddressOf(t.addrs, e.ip).Some? && !IsGateway(t, e.ip)
  }

  predicate RouteKeysOnly(vid: nat, mods: seq<FlowMod>) {
    forall i :: 0 <= i < |mods| ==> match mods[i] case Add(k, _) => IsRouteKey(vid, k) case Delete(_) => false
  }

  lemma RouteKeysOutside(addrs: map<Prefix, Address>, vid: nat, paused: set<nat>, strays: map<Ip, Stray>,
                         mods: seq<FlowMod>)
    requires RouteKeysOnly(vid, mods)
    ensures Outside(mods, OwnKeys(addrs, vid, paused), StrayFlows(vid, strays))
  {
    forall i | 0 <= i < |mods|
      ensures OutsideOne(mods[i], OwnKeys(addrs, vid, paused), StrayFlows(vid, strays))
    {
      RouteKeysApart(addrs, vid, paused, strays, mods[i].key);
    }
  }

  lemma {:induction false} GatewayModsRouteKeys(t: Tables, vid: nat, order: seq<Prefix>, hop: Hop)
    requires RoutesValid(t.routes, t.nextRoute) && forall p :: p in order ==> p in t.routes
    ensures RouteKeysOnly(vid, GatewayMods(t, vid, order, hop))
  {
    if order != [] {
      var p := order[|order| - 1];
      GatewayModsRouteKeys(t, vid, order[..|order| - 1], hop);
      ApplyMaskEnds(p.addr);
    }
  }

  /** Deleting reported routes touches no entry of an address. */
  lemma {:induction false} RouteStatsOutside(t: Tables, vid: nat, paused: set<nat>, strays: map<Ip, Stray>,
                                             stats: seq<FlowStats>)
    requires StraysOk(t, strays) && forall i :: 0 <= i < |stats| ==> IsRouteStat(t, vid, stats[i])
    ensures Outside(RouteStatsMods(vid, stats), OwnKeys(t.addrs, vid, paused), StrayFlows(vid, strays))
  {
    if stats != [] {
      var rest, st := stats[..|stats| - 1], stats[|stats| - 1];
      RouteStatsOutside(t, vid, paused, strays, rest);
      assert IsRouteStat(t, vid, st);
      RouteKeysApart(t.addrs, vid, paused, strays, DefaultKey(vid));
      forall k | k in StrayFlows(vid, strays)
        ensures StrayFlows(vid, strays)[k].cookie != st.cookie
      {
        StrayKeys(vid, strays, k);
        CookiePartition(vid, strays[k.m.dst.value.addr].id, CookieToRouteId(st.cookie));
      }
    }
  }

  lemma NewAddressOutside(t: Tables, vid: nat, paused: set<nat>, strays: map<Ip, Stray>, gw: Ip, len: PrefixLen)
    requires AddrsValid(t.addrs, t.nextAddr) && NoOverlap(t.addrs, gw, len)
    ensures Outside(AddressMods(vid, Address(t.nextAddr, NetOf(gw, len), gw)), OwnKeys(t.addrs, vid, paused),
                    StrayFlows(vid, strays))
  {
    var a := Address(t.nextAddr, NetOf(gw, len), gw);
    AddKeepsDisjoint(t, gw, len);
    forall p, k | p in t.addrs && k in KeysOf(vid, t.addrs[p])
      ensures k !in KeysOf(vid, a)
    {
      assert a.net != p && a.gw != t.addrs[p].gw by {
        NetOfCovers(gw, len);
        NetOfCovers(t.addrs[p].gw, p.len);
        var addrs' := WithAddress(t, gw, len).addrs;
        assert a.net in addrs' && p in addrs';
      }
    }
    forall k | k in KeysOf(vid, a)
      ensures k !in StrayFlows(vid, strays)
    {
      StrayKeys(vid, strays, k);
    }
    var mods := AddressMods(vid, a);
    forall i | 0 <= i < |mods|
      ensures OutsideOne(mods[i], OwnKeys(t.addrs, vid, paused), StrayFlows(vid, strays))
    {
      assert mods[i].key in KeysOf(vid, a);
    }
  }

  lemma NewAddressKeys(t: Tables, vid: nat, paused: set<nat>, gw: Ip, len: PrefixLen)
    requires NetOf(gw, len) !in t.addrs && t.nextAddr !in paused
    ensures OwnKeys(WithAddress(t, gw, len).addrs, vid, paused) == OwnKeys(t.addrs, vid, paused)
  {
    var addrs' := WithAddress(t, gw, len).addrs;
    forall p | p in t.addrs
      ensures p in addrs' && addrs'[p] == t.addrs[p]
    {
    }
  }

  /** Every handler that learns no host leaves the missing and the stray entries alone. */
  lemma EventOutside(t: Tables, vid: nat, paused: set<nat>, strays: map<Ip, Stray>, e: Event, mods: seq<FlowMod>)
    requires Valid(t) && StraysOk(t, strays) && Admissible(t, e) && Emits(t, vid, e, mods) && Reported(t, vid, e)
    requires !e.DeleteAddress? && !LearnsHost(t, e) && t.nextAddr !in paused
    ensures Outside(mods, OwnKeys(t.addrs, vid, paused), StrayFlows(vid, strays))
    ensures OwnKeys(Next(t, vid, e).addrs, vid, paused) == OwnKeys(t.addrs, vid, paused)
    ensures Next(t, vid, e).learned == t.learned
  {
    match e
    case SetAddress(gw, len) =>
      if NoOverlap(t.addrs, gw, len) {
        NewAddressOutside(t, vid, paused, strays, gw, len);
        AddKeepsDisjoint(t, gw, len);
        NewAddressKeys(t, vid, paused, gw, len);
      }
    case SetRoute(d, gateway) => SetRouteOutside(t, vid, paused, strays, d, gateway, mods);
    case DeleteRoute(which, dump) =>
      SelectedRouteStats(t, vid, which, dump);
      RouteStatsOutside(t, vid, paused, strays, SelectRoutes(vid, which, dump));
    case Arp(ip, hop) => GatewayOutside(t, vid, paused, strays, ip, hop, mods);
  }

  lemma SetRouteOutside(t: Tables, vid: nat, paused: set<nat>, strays: map<Ip, Stray>, d: Destination, gateway: Ip,
                        mods: seq<FlowMod>)
    requires Admissible(t, SetRoute(d, gateway)) && Emits(t, vid, SetRoute(d, gateway), mods)
    ensures Outside(mods, OwnKeys(t.addrs, vid, paused), StrayFlows(vid, strays))
  {
    ProperWhenAdmissible(d);
    RouteKeysOutside(t.addrs, vid, paused, strays, mods);
  }

  lemma GatewayOutside(t: Tables, vid: nat, paused: set<nat>, strays: map<Ip, Stray>, ip: Ip, hop: Hop,
                       mods: seq<FlowMod>)
    requires RoutesValid(t.routes, t.nextRoute) && Emits(t, vid, Arp(ip, hop), mods) && !LearnsHost(t, Arp(ip, hop))
    ensures Outside(mods, OwnKeys(t.addrs, vid, paused), StrayFlows(vid, strays))
  {
    if AddressOf(t.addrs, ip).Some? {
      var order :| RefreshOrder(t, ip, hop, order) && mods == GatewayMods(t, vid, order, hop);
      GatewayModsRouteKeys(t, vid, order, hop);
      RouteKeysOutside(t.addrs, vid, paused, strays, mods);
    }
  }

  lemma QuietEventKeeps(t: Tables, vid: nat, paused: set<nat>, strays: map<Ip, Stray>, table: FlowTable, e: Event,
                        mods: seq<FlowMod>)
    requires Valid(t) && StraysOk(t, strays) && Admissible(t, e) && Emits(t, vid, e, mods) && Reported(t, vid, e)
    requires Safe(t, vid, e) && !e.DeleteAddress? && !LearnsHost(t, e) && t.nextAddr !in paused
    requires PausedAgrees(t, vid, paused, strays, table)
    ensures Valid(Next(t, vid, e)) && PausedAgrees(Next(t, vid, e), vid, paused, strays, ApplyMods(table, mods))
  {
    var full :| PausedFrom(t, vid, paused, strays, table, full);
    StepKeeps(t, vid, e, mods, full);
    EventOutside(t, vid, paused, strays, e, mods);
    StraysApart(t, vid, strays, full);
    ModsShow(table, full, OwnKeys(t.addrs, vid, paused), StrayFlows(vid, strays), mods);
    assert PausedFrom(Next(t, vid, e), vid, paused, strays, ApplyMods(table, mods), ApplyMods(full, mods));
  }

  /** A learned host is no stray any more. */
  lemma LearningKeeps(t: Tables, vid: nat, paused: set<nat>, strays: map<Ip, Stray>, table: FlowTable, e: Event,
                      mods: seq<FlowMod>)
    requires Valid(t) && Emits(t, vid, e, mods) && LearnsHost(t, e)
    requires PausedAgrees(t, vid, paused, strays, table)
    ensures Valid(Next(t, vid, e))
    ensures PausedAgrees(Next(t, vid, e), vid, paused, strays - {e.ip}, ApplyMods(table, mods))
  {
    var full :| PausedFrom(t, vid, paused, strays, table, full);
    var k, f := mods[0].key, mods[0].flow;
    LearnHostKeeps(t, vid, e.ip, e.hop, full);
    ApplyOne(table, mods[0]);
    ApplyOne(full, mods[0]);
    assert mods == [mods[0]] && k == HostKey(vid, e.ip);
    HostKeysApart(t.addrs, vid, paused, e.ip);
    AddShows(table, full, OwnKeys(t.addrs, vid, paused), StrayFlows(vid, strays), k, f);
    StrayFlowsLess(vid, strays, e.ip);
    assert PausedFrom(Next(t, vid, e), vid, paused, strays - {e.ip}, ApplyMods(table, mods), full[k := f]);
  }

  lemma StrayFlowsLess(vid: nat, strays: map<Ip, Stray>, ip: Ip)
    ensures StrayFlows(vid, strays) - {HostKey(vid, ip)} == StrayFlows(vid, strays - {ip})
  {
    forall k
      ensures k in StrayFlows(vid, strays) - {HostKey(vid, ip)} <==> k in StrayFlows(vid, strays - {ip})
    {
      StrayKeys(vid, strays, k);
      StrayKeys(vid, strays - {ip}, k);
    }
  }

  lemma StraysAfter(t: Tables, vid: nat, strays: map<Ip, Stray>, e: Event)
    requires StraysOk(t, strays) && !e.DeleteAddress?
    ensures strays - Next(t, vid, e).learned.Keys == if LearnsHost(t, e) then strays - {e.ip} else strays
  {
    if LearnsHost(t, e) {
      assert Next(t, vid, e).learned == t.learned[e.ip := e.hop];
    } else {
      assert Next(t, vid, e).learned == t.learned;
    }
  }

  /** Every handler between two pauses, apart from the deletion of addresses itself. */
  lemma EventKeeps(t: Tables, vid: nat, paused: set<nat>, strays: map<Ip, Stray>, table: FlowTable, e: Event,
                   mods: seq<FlowMod>)
    requires Valid(t) && StraysOk(t, strays) && Admissible(t, e) && Emits(t, vid, e, mods) && Reported(t, vid, e)
    requires Safe(t, vid, e) && !e.DeleteAddress? && t.nextAddr !in paused
    requires PausedAgrees(t, vid, paused, strays, table)
    ensures var t' := Next(t, vid, e);
      Valid(t') && PausedAgrees(t', vid, paused, strays - t'.learned.Keys, ApplyMods(table, mods))
  {
    StraysAfter(t, vid, strays, e);
    if LearnsHost(t, e) {
      LearningKeeps(t, vid, paused, strays, table, e, mods);
    } else {
      QuietEventKeeps(t, vid, paused, strays, table, e, mods);
    }
  }

  /** The switch drops an idle host entry, stray or not. */
  lemma ExpiryKeeps(t: Tables, vid: nat, paused: set<nat>, strays: map<Ip, Stray>, table: FlowTable, ip: Ip)
    requires Valid(t) && PausedAgrees(t, vid, paused, strays, table)
    ensures var t' := t.(learned := t.learned - {ip});
      Valid(t') && PausedAgrees(t', vid, paused, strays - {ip}, table - {HostKey(vid, ip)})
  {
    var full :| PausedFrom(t, vid, paused, strays, table, full);
    ExpireHostKeeps(t, vid, ip, full);
    StrayFlowsLess(vid, strays, ip);
    DropShows(table, full, OwnKeys(t.addrs, vid, paused), StrayFlows(vid, strays), HostKey(vid, ip));
    assert PausedFrom(t.(learned := t.learned - {ip}), vid, paused, strays - {ip}, table - {HostKey(vid, ip)},
                      full - {HostKey(vid, ip)});
  }

  /** An outdated default entry makes the switch drop what the present default route is to forward. */
  lemma OverwrittenDefault(t: Tables, vid: nat, paused: set<nat>, strays: map<Ip, Stray>, table: FlowTable,
                           which: Option<nat>, dump: seq<FlowStats>)
    requires Valid(t) && AdmissibleId(which) && Reported(t, vid, DeleteRoute(which, dump))
    requires !Safe(t, vid, DeleteRoute(which, dump))
    ensures var stats := SelectRoutes(vid, which, dump);
      !PausedAgrees(Next(t, vid, DeleteRoute(which, dump)), vid, paused, strays,
                    ApplyMods(table, RouteStatsMods(vid, stats)))
  {
    var stats := SelectRoutes(vid, which, dump);
    var t', table' := Next(t, vid, DeleteRoute(which, dump)), ApplyMods(table, RouteStatsMods(vid, stats));
    SelectedRouteStats(t, vid, which, dump);
    CookiePartition(vid, 1, 1);
    assert !HasCookie(stats, VlanCookie(vid));
    ApplyRouteStats(table, vid, stats, DefaultKey(vid));
    if full :| PausedFrom(t', vid, paused, strays, table', full) {
      InstalledForDefault(t', vid, full);
      RouteKeysApart(t'.addrs, vid, paused, strays, DefaultKey(vid));
    }
  }
}
