/** The stateful classes of `rest_router.py` for one VLAN. */
module Router {
  import opened Wrappers
  import opened Cidr
  import opened RouterTables
  import opened RouterSteps
  import opened RouterEvents
  import opened RouterPause

  datatype Failure =
    | IllegalNetmask
    | AddressOverlaps(id: nat)
    | GatewayNotRegistered
    | GatewayIsOwnAddress(id: nat)
    | DestinationOverlaps(id: nat)

  // ---------------------------------------------------------------- registered addresses

  /** A dictionary from networks to addresses; iteration order is left open. */
  class AddressData {
    var items: map<Prefix, Address>
    var addressId: nat

    constructor ()
      ensures items == map[] && addressId == 1
    {
      items, addressId := map[], 1;
    }

    /** `netmask` is the number behind the slash as the caller wrote it. */
    method Add(gw: Ip, netmask: int) returns (r: Result<Address, Failure>)
      requires forall p :: p in items ==> p == NetOf(items[p].gw, p.len)
      modifies this
      ensures !(0 <= netmask <= 32) ==> r == Err(IllegalNetmask)
      ensures 0 <= netmask <= 32 && NoOverlap(old(items), gw, netmask) ==>
        && r == Ok(Address(old(addressId), NetOf(gw, netmask), gw))
        && items == old(items)[NetOf(gw, netmask) := r.value]
        && addressId == NextId(old(addressId))
      ensures 0 <= netmask <= 32 && !NoOverlap(old(items), gw, netmask) ==>
        && r.Err? && r.error.AddressOverlaps?
        && exists p :: p in old(items) && old(items)[p].id == r.error.id && Overlap(NetOf(gw, netmask), p)
      ensures r.Err? ==> items == old(items) && addressId == old(addressId)
    {
      if !(0 <= netmask <= 32) {
        return Err(IllegalNetmask);
      }
      var len: PrefixLen := netmask;
      var todo := items.Keys;
      while todo != {}
        invariant todo <= items.Keys
        invariant forall p :: p in items && p !in todo ==> !GatewayTest(gw, len, items[p].gw, p.len)
        decreases |todo|
      {
        var p :| p in todo;
        if GatewayTest(gw, len, items[p].gw, p.len) {
          GatewayTestIsOverlap(gw, len, items[p].gw, p.len);
          assert p in old(items) && Overlap(NetOf(gw, len), p);
          return Err(AddressOverlaps(items[p].id));
        }
        todo := todo - {p};
      }
      var address := Address(addressId, NetOf(gw, len), gw);
      items := items[address.net := address];
      addressId := (addressId + 1) % ID_MODULUS;
      if addressId == 0 {
        addressId := 1;
      }
      return Ok(address);
    }

    method Delete(id: nat)
      requires AddrsValid(items, addressId)
      modifies `items
      ensures items == AddressesWithout(old(items), {id})
    {
      var todo := items.Keys;
      while todo != {}
        invariant todo <= items.Keys && items == old(items)
        invariant forall p :: p in items && p !in todo ==> items[p].id != id
        decreases |todo|
      {
        var p :| p in todo;
        if items[p].id == id {
          items := items - {p};
          return;
        }
        todo := todo - {p};
      }
    }

    method GetById(id: nat) returns (r: Option<Address>)
      ensures r.Some? ==> r.value.id == id && exists p :: p in items && items[p] == r.value
      ensures r.None? ==> forall p :: p in items ==> items[p].id != id
    {
      var todo := items.Keys;
      while todo != {}
        invariant todo <= items.Keys
        invariant forall p :: p in items && p !in todo ==> items[p].id != id
        decreases |todo|
      {
        var p :| p in todo;
        if items[p].id == id {
          return Some(items[p]);
        }
        todo := todo - {p};
      }
      return None;
    }

    /** Whatever the order of the search, the one network that contains `ip` is found. */
    method GetByIp(ip: Ip) returns (r: Option<Address>)
      requires NetsDisjoint(items)
      ensures r == AddressOf(items, ip)
    {
      var todo := items.Keys;
      while todo != {}
        invariant todo <= items.Keys
        invariant forall p :: p in items && p !in todo ==> !Covers(p, ip)
        decreases |todo|
      {
        var p :| p in todo;
        if Covers(p, ip) {
          AddressOfUnique(items, ip, p);
          return Some(items[p]);
        }
        todo := todo - {p};
      }
      return None;
    }
  }

  // ---------------------------------------------------------------- routes

  class RoutingTable {
    var items: map<Prefix, Route>
    var routeId: nat

    constructor ()
      ensures items == map[] && routeId == 1
    {
      items, routeId := map[], 1;
    }

    method Add(d: Destination, gateway: Ip) returns (r: Result<Route, Failure>)
      modifies this
      ensures var net := DestinationNet(d);
        if (d.DefaultRoute? || d.canonical) && net in old(items) then
          && r == Err(DestinationOverlaps(old(items)[net].id))
          && items == old(items) && routeId == old(routeId)
        else
          && r == Ok(Route(old(routeId), d.DefaultRoute?, net, gateway, None))
          && items == old(items)[net := r.value]
          && routeId == NextId(old(routeId))
    {
      var net := DestinationNet(d);
      if d.DefaultRoute? || d.canonical {
        if net in items {
          return Err(DestinationOverlaps(items[net].id));
        }
      }
      var route := Route(routeId, d.DefaultRoute?, net, gateway, None);
      items := items[net := route];
      routeId := (routeId + 1) % ID_MODULUS;
      if routeId == 0 {
        routeId := 1;
      }
      return Ok(route);
    }

    method Delete(id: nat)
      requires RoutesValid(items, routeId)
      modifies `items
      ensures items == RoutesWithout(old(items), {id})
    {
      var todo := items.Keys;
      while todo != {}
        invariant todo <= items.Keys && items == old(items)
        invariant forall p :: p in items && p !in todo ==> items[p].id != id
        decreases |todo|
      {
        var p :| p in todo;
        if items[p].id == id {
          items := items - {p};
          return;
        }
        todo := todo - {p};
      }
    }

    /** One strict comparison per route finds the longest match in any order. */
    method GetByDst(dst: Ip) returns (r: Option<Route>)
      requires RoutesValid(items, routeId)
      ensures r == RouteOf(items, dst)
      ensures forall p :: IsLongest(items, dst, p) ==> r == Some(items[p])
      ensures (forall p :: !StaticFor(items, dst, p)) ==>
        r == if DEFAULT_NET in items then Some(items[DEFAULT_NET]) else None
    {
      var mask := 0;
      ghost var best := DEFAULT_NET;
      r := None;
      var todo := items.Keys;
      while todo != {}
        invariant todo <= items.Keys
        invariant forall q :: q !in todo && StaticFor(items, dst, q) ==> q.len <= mask
        invariant mask == 0 <==> r.None?
        invariant r.Some? ==> StaticFor(items, dst, best) && best.len == mask && r.value == items[best]
        decreases |todo|
      {
        var p :| p in todo;
        if !items[p].isDefault && Covers(p, dst) {
          if mask < p.len {
            r, mask := Some(items[p]), p.len;
            best := p;
          }
        }
        todo := todo - {p};
      }
      if r.None? {
        assert forall q :: !StaticFor(items, dst, q);
        if DEFAULT_NET in items {
          r := Some(items[DEFAULT_NET]);
        }
      } else {
        LongestUnique(items, dst, best);
      }
    }
  }

  // ---------------------------------------------------------------- the drop entry

  lemma DropModAgrees(vid: nat)
    ensures Agrees(EMPTY_TABLES, vid, ApplyMods(map[], [Add(DefaultKey(vid), DropFlow(vid))]))
  {
    InitialAgrees(vid);
    ApplyOne(map[], Add(DefaultKey(vid), DropFlow(vid)));
    assert map[][DefaultKey(vid) := DropFlow(vid)] == map[DefaultKey(vid) := DropFlow(vid)];
  }

  /** One added entry with which a switch agrees with the empty tables can only be the drop entry. */
  lemma DropModUnique(vid: nat, mods: seq<FlowMod>)
    requires |mods| == 1 && mods[0].Add? && Agrees(EMPTY_TABLES, vid, ApplyMods(map[], mods))
    ensures mods == [Add(DefaultKey(vid), DropFlow(vid))]
  {
    ApplyOne(map[], mods[0]);
    assert mods == [mods[0]];
    InstalledForDefault(EMPTY_TABLES, vid, ApplyMods(map[], mods));
  }

  // ---------------------------------------------------------------- turns of the deletion loop

  lemma StruckThenForgotten(t: Tables, id: nat)
    requires AddrsValid(t.addrs, t.nextAddr)
    ensures WithoutAddresses(Struck(t, id), {id}) == WithoutAddresses(t, {id})
    ensures !HasId(t.addrs, id) ==> Struck(t, id) == WithoutAddresses(t, {id})
  {
    assert WithoutAddresses(Struck(t, id), {id}).learned == WithoutAddresses(t, {id}).learned;
    assert Struck(t, id).learned == WithoutAddresses(t, {id}).learned;
    if !HasId(t.addrs, id) {
      assert AddressesWithout(t.addrs, {id}) == t.addrs;
    }
  }

  /** The first `n` entries of the list are removed with their addresses. */
  ghost predicate GoneThrough(vid: nat, t: Tables, t': Tables, list: seq<FlowStats>, n: nat, deleted: seq<nat>,
                              mods: seq<FlowMod>)
    requires n <= |list|
  {
    var ids := AddressStatIds(list[..n]);
    && t' == WithoutAddresses(t, Elements(ids))
    && mods == AddressDeletes(vid, ids)
    && forall id :: id in deleted <==> id in ids && HasId(t.addrs, id)
  }

  /**
   Where the loop over the list stands when it pauses or ends: the entries before the pause are
   removed with their addresses, those of the address it pauses at without.
   */
  ghost predicate AtPause(vid: nat, t: Tables, t': Tables, list: seq<FlowStats>, suspended: set<nat>, at: Option<nat>,
                          rest: seq<FlowStats>, deleted: seq<nat>, mods: seq<FlowMod>)
  {
    match at
    case None => rest == [] && GoneThrough(vid, t, t', list, |list|, deleted, mods)
    case Some(id) =>
      && |rest| < |list|
      && PausesAt(vid, t, t', list, |list| - |rest| - 1, id, deleted, mods)
      && rest == list[|list| - |rest|..]
      && id in suspended
      && HasId(t'.addrs, id)
  }

  ghost predicate PausesAt(vid: nat, t: Tables, t': Tables, list: seq<FlowStats>, n: nat, id: nat, deleted: seq<nat>,
                           mods: seq<FlowMod>)
    requires n < |list|
  {
    && id == CookieToAddressId(list[n].cookie)
    && exists done, sent ::
         && GoneThrough(vid, t, done, list, n, deleted, sent)
         && t' == Struck(done, id)
         && mods == sent + [Delete(list[n].cookie)]
  }

  lemma PausedHere(vid: nat, t: Tables, done: Tables, list: seq<FlowStats>, n: nat, suspended: set<nat>,
                   deleted: seq<nat>, sent: seq<FlowMod>)
    requires n < |list| && GoneThrough(vid, t, done, list, n, deleted, sent)
    requires var id := CookieToAddressId(list[n].cookie); id in suspended && HasId(done.addrs, id)
    ensures var id := CookieToAddressId(list[n].cookie);
      AtPause(vid, t, Struck(done, id), list, suspended, Some(id), list[n + 1..], deleted,
              sent + [Delete(list[n].cookie)])
  {
    assert |list| - |list[n + 1..]| - 1 == n;
    assert PausesAt(vid, t, Struck(done, CookieToAddressId(list[n].cookie)), list, n, CookieToAddressId(list[n].cookie),
                    deleted, sent + [Delete(list[n].cookie)]);
  }

  lemma NothingGone(vid: nat, t: Tables, list: seq<FlowStats>)
    ensures GoneThrough(vid, t, t, list, 0, [], [])
  {
    WithoutNone(t);
    assert Elements(AddressStatIds(list[..0])) == {};
  }

  lemma OneMoreGone(vid: nat, t: Tables, t': Tables, list: seq<FlowStats>, n: nat, deleted: seq<nat>,
                    mods: seq<FlowMod>, deleted': seq<nat>)
    requires AddrsValid(t.addrs, t.nextAddr) && n < |list| && GoneThrough(vid, t, t', list, n, deleted, mods)
    requires list[n].cookie == AddressCookie(vid, CookieToAddressId(list[n].cookie))
    requires var id := CookieToAddressId(list[n].cookie);
      deleted' == if HasId(t'.addrs, id) && id !in deleted then deleted + [id] else deleted
    ensures AddrsValid(t'.addrs, t'.nextAddr)
    ensures GoneThrough(vid, t, WithoutAddresses(t', {CookieToAddressId(list[n].cookie)}), list, n + 1, deleted',
                        mods + [Delete(list[n].cookie)])
  {
    var ids, id := AddressStatIds(list[..n]), CookieToAddressId(list[n].cookie);
    assert list[..n + 1][..n] == list[..n];
    assert (ids + [id])[..|ids|] == ids;
    DeleteForgets(t, ids, id);
  }

  lemma StatIdListed(list: seq<FlowStats>, i: nat)
    requires i < |list|
    ensures CookieToAddressId(list[i].cookie) in AddressStatIds(list)
  {
    AddressStatIdsElements(list, CookieToAddressId(list[i].cookie));
  }

  // ---------------------------------------------------------------- one VLAN's router

  /**
   `VlanRouter`. Each handler returns the flow modifications it sends, in order; `Handled` says
   what they and the new tables amount to.
   */
  class VlanRouter {
    const vlanId: nat
    const addressData: AddressData
    const routingTbl: RoutingTable
    ghost var learned: map<Ip, Hop>

    ghost function T(): Tables
      reads this, addressData, routingTbl
    {
      Tables(addressData.items, addressData.addressId, routingTbl.items, routingTbl.routeId, learned)
    }

    constructor (vlanId: nat)
      ensures this.vlanId == vlanId && fresh(addressData) && fresh(routingTbl)
      ensures T() == EMPTY_TABLES && Valid(T())
    {
      this.vlanId := vlanId;
      addressData := new AddressData();
      routingTbl := new RoutingTable();
      learned := map[];
    }

    /** Installs the one entry that empty tables call for. */
    method SetDefaultRouteDrop() returns (mods: seq<FlowMod>)
      ensures |mods| == 1 && mods[0].Add?
      ensures Agrees(EMPTY_TABLES, vlanId, ApplyMods(map[], mods))
    {
      mods := [Add(DefaultKey(vlanId), DropFlow(vlanId))];
      DropModAgrees(vlanId);
    }

    method SetAddressData(gw: Ip, netmask: int) returns (r: Result<nat, Failure>, mods: seq<FlowMod>)
      requires Valid(T())
      modifies addressData
      ensures !(0 <= netmask <= 32) ==> r == Err(IllegalNetmask) && T() == old(T()) && mods == []
      ensures 0 <= netmask <= 32 ==> Handled(old(T()), T(), vlanId, SetAddress(gw, netmask), mods)
      ensures r.Ok? <==> 0 <= netmask <= 32 && NoOverlap(old(addressData.items), gw, netmask)
      ensures r.Ok? ==> r.value == old(addressData.addressId)
    {
      var added := addressData.Add(gw, netmask);
      mods := [];
      if added.Err? {
        r := Err(added.error);
      } else {
        var a := added.value;
        var cookie := AddressCookie(vlanId, a.id);
        mods := mods + [Add(DstKey(GetPriority(PRIORITY_MAC_LEARNING, vlanId), a.net),
                            Flow(cookie, 0, ToController))];
        mods := mods + [Add(DstKey(GetPriority(PRIORITY_IP_HANDLING, vlanId), Prefix(a.gw, 32)),
                            Flow(cookie, 0, ToController))];
        mods := mods + [Add(FlowKey(GetPriority(PRIORITY_L2_SWITCHING, vlanId), Match(Some(a.net), Some(a.net))),
                            Flow(cookie, 0, Normal))];
        r := Ok(a.id);
      }
      if 0 <= netmask <= 32 {
        HandledByNext(old(T()), vlanId, SetAddress(gw, netmask), mods);
      }
    }

    method SetRoutingData(d: Destination, gateway: Ip) returns (r: Result<nat, Failure>, mods: seq<FlowMod>)
      requires Valid(T())
      modifies routingTbl
      ensures Handled(old(T()), T(), vlanId, SetRoute(d, gateway), mods)
      ensures r.Ok? <==> RouteAccepted(old(T()), d, gateway)
      ensures r.Ok? ==> r.value == old(routingTbl.routeId)
      ensures var a := AddressOf(addressData.items, gateway);
        && (a.None? ==> r == Err(GatewayNotRegistered))
        && (a.Some? && a.value.gw == gateway ==> r == Err(GatewayIsOwnAddress(a.value.id)))
        && (a.Some? && a.value.gw != gateway && r.Err? ==>
              exists p :: p in old(routingTbl.items) && p == DestinationNet(d)
                       && r == Err(DestinationOverlaps(old(routingTbl.items)[p].id)))
      ensures r.Err? ==> mods == [] && T() == old(T())
    {
      mods := [];
      var address := addressData.GetByIp(gateway);
      if address.None? {
        r := Err(GatewayNotRegistered);
      } else if gateway == address.value.gw {
        r := Err(GatewayIsOwnAddress(address.value.id));
      } else {
        var added := routingTbl.Add(d, gateway);
        if added.Err? {
          r := Err(added.error);
        } else {
          var route := added.value;
          mods := [Add(RouteKey(vlanId, route), Flow(RouteCookie(vlanId, route.id), 0, ToController))];
          r := Ok(route.id);
        }
      }
      HandledByNext(old(T()), vlanId, SetRoute(d, gateway), mods);
    }

    /** Ids of the addresses some route depends on, in the shape the caller's request needs. */
    method ChkAddrRelationRoute(which: Option<nat>) returns (skip: set<nat>)
      requires NetsDisjoint(addressData.items)
      ensures skip == SkipIds(T(), which)
    {
      skip := {};
      ghost var t := T();
      ghost var done: set<Prefix> := {};
      var todo := routingTbl.items.Keys;
      while todo != {}
        invariant done + todo == t.routes.Keys
        invariant SkipSoFar(t, which, done, skip)
        decreases |todo|
      {
        var p :| p in todo;
        var address := addressData.GetByIp(routingTbl.items[p].gateway);
        SkipStep(t, which, done, p, skip);
        if address.Some? {
          if which.None? {
            skip := skip + {address.value.id};
          } else if address.value.id == which.value {
            skip := {which.value};
            return;
          }
        }
        todo, done := todo - {p}, done + {p};
      }
      assert done == t.routes.Keys;
    }

    /** The delete list `_delete_address_data` gathers from the reported entries. */
    method GatherAddresses(which: Option<nat>, skip: set<nat>, dump: seq<FlowStats>)
      returns (deleteList: seq<FlowStats>)
      ensures deleteList == FilterAddresses(vlanId, which, skip, dump)
    {
      deleteList := [];
      for i := 0 to |dump|
        invariant deleteList == FilterAddresses(vlanId, which, skip, dump[..i])
      {
        assert dump[..i + 1][..i] == dump[..i];
        if CookieToVid(dump[i].cookie) != vlanId {
          continue;
        }
        var addrId := CookieToAddressId(dump[i].cookie);
        if addrId in skip {
          continue;
        }
        if which.None? {
          if addrId <= 0 || 0xffff < addrId {
            continue;
          }
        } else if which.value != addrId {
          continue;
        }
        deleteList := deleteList + [dump[i]];
      }
      assert dump[..|dump|] == dump;
    }

    /** The first half of a turn of the deletion loop: the entries go, and the address is looked up. */
    method StrikeEntry(st: FlowStats) returns (found: bool, mods: seq<FlowMod>)
      modifies this`learned
      ensures T() == Struck(old(T()), CookieToAddressId(st.cookie))
      ensures mods == [Delete(st.cookie)]
      ensures found <==> HasId(addressData.items, CookieToAddressId(st.cookie))
    {
      mods := [Delete(st.cookie)];
      var id := CookieToAddressId(st.cookie);
      learned := Struck(T(), id).learned;
      var address := addressData.GetById(id);
      found := address.Some?;
    }

    /** The second half: the threads of the packets suspended for its network are ended, the address goes. */
    method ForgetAddress(id: nat)
      requires AddrsValid(addressData.items, addressData.addressId)
      modifies addressData`items, this`learned
      ensures T() == WithoutAddresses(old(T()), {id})
    {
      learned := WithoutAddresses(T(), {id}).learned;
      addressData.Delete(id);
    }

    /** `_delete_address_data` up to the point where it asks the switch for its entries. */
    method AskAddressDeletion(which: Option<nat>) returns (skip: set<nat>)
      requires Valid(T())
      ensures which.None? ==> forall id :: id in skip <==> Related(T(), id)
      ensures which.Some? ==> skip == if Related(T(), which.value) then {which.value} else {}
    {
      skip := ChkAddrRelationRoute(which);
      forall id: nat | which.Some? ==> id == which.value
        ensures id in skip <==> Related(T(), id)
      {
        SkipIdsAreRelated(T(), which, id);
      }
    }

    /**
     The rest of it, once the switch has reported `dump`, up to the first pause: every selected address
     that is not in the skip list goes together with its entries, whatever happened to the tables
     meanwhile. `suspended` are the ids of the addresses whose networks have suspended packets.
     */
    method DeleteAddressData(which: Option<nat>, skip: set<nat>, dump: seq<FlowStats>, suspended: set<nat>)
      returns (at: Option<nat>, rest: seq<FlowStats>, deleted: seq<nat>, mods: seq<FlowMod>)
      requires Valid(T())
      modifies addressData`items, this`learned
      ensures AtPause(vlanId, old(T()), T(), FilterAddresses(vlanId, which, skip, dump), suspended,
                      at, rest, deleted, mods)
      ensures at.None? ==> Handled(old(T()), T(), vlanId, DeleteAddress(which, skip, dump), mods)
      ensures at.Some? ==> at.value !in skip && (which.Some? ==> at == which)
    {
      ghost var before := T();
      var deleteList := GatherAddresses(which, skip, dump);
      forall st | st in deleteList
        ensures st.cookie == AddressCookie(vlanId, CookieToAddressId(st.cookie))
      {
        ListedCookie(vlanId, which, skip, dump, st);
      }
      at, rest, deleted, mods := DeleteListed(deleteList, suspended);
      if at.None? {
        assert deleteList[..|deleteList|] == deleteList;
        HandledByNext(before, vlanId, DeleteAddress(which, skip, dump), mods);
      } else {
        StatIdListed(deleteList, |deleteList| - |rest| - 1);
        DeletedIdsSound(vlanId, which, skip, dump, at.value);
      }
    }

    /** A deletion goes on after its pause at an address. */
    method ResumeDeletion(was: nat, list: seq<FlowStats>, suspended: set<nat>)
      returns (at: Option<nat>, rest: seq<FlowStats>, deleted: seq<nat>, mods: seq<FlowMod>)
      requires AddrsValid(addressData.items, addressData.addressId)
      requires forall st :: st in list ==> st.cookie == AddressCookie(vlanId, CookieToAddressId(st.cookie))
      modifies addressData`items, this`learned
      ensures AtPause(vlanId, WithoutAddresses(old(T()), {was}), T(), list, suspended, at, rest, deleted, mods)
    {
      AddressesWithoutValid(addressData.items, addressData.addressId, {was});
      ForgetAddress(was);
      at, rest, deleted, mods := DeleteListed(list, suspended);
    }

    method DeleteListed(list: seq<FlowStats>, suspended: set<nat>)
      returns (at: Option<nat>, rest: seq<FlowStats>, deleted: seq<nat>, mods: seq<FlowMod>)
      requires AddrsValid(addressData.items, addressData.addressId)
      requires forall st :: st in list ==> st.cookie == AddressCookie(vlanId, CookieToAddressId(st.cookie))
      modifies addressData`items, this`learned
      ensures AtPause(vlanId, old(T()), T(), list, suspended, at, rest, deleted, mods)
    {
      ghost var before := T();
      deleted, mods := [], [];
      NothingGone(vlanId, before, list);
      for i := 0 to |list|
        invariant GoneThrough(vlanId, before, T(), list, i, deleted, mods)
        invariant AddrsValid(addressData.items, addressData.addressId)
      {
        var id := CookieToAddressId(list[i].cookie);
        assert list[i] in list;
        ghost var deleted' := if HasId(addressData.items, id) && id !in deleted then deleted + [id] else deleted;
        OneMoreGone(vlanId, before, T(), list, i, deleted, mods, deleted');
        AddressesWithoutValid(addressData.items, addressData.addressId, {id});
        ghost var done, was := T(), mods;
        var found, paused, sent := TurnOf(list[i], suspended);
        mods := mods + sent;
        if paused {
          PausedHere(vlanId, before, done, list, i, suspended, deleted, was);
          return Some(id), list[i + 1..], deleted, mods;
        }
        if found && id !in deleted {
          deleted := deleted + [id];
        }
      }
      return None, [], deleted, mods;
    }

    /** One turn of the loop, up to the pause at an address with suspended packets. */
    method TurnOf(st: FlowStats, suspended: set<nat>) returns (found: bool, paused: bool, mods: seq<FlowMod>)
      requires AddrsValid(addressData.items, addressData.addressId)
      modifies addressData`items, this`learned
      ensures var id := CookieToAddressId(st.cookie);
        && found == HasId(old(addressData.items), id)
        && paused == (found && id in suspended)
        && T() == if paused then Struck(old(T()), id) else WithoutAddresses(old(T()), {id})
      ensures mods == [Delete(st.cookie)]
    {
      var id := CookieToAddressId(st.cookie);
      StruckThenForgotten(T(), id);
      found, mods := StrikeEntry(st);
      paused := found && id in suspended;
      if found && !paused {
        ForgetAddress(id);
      }
    }

    /** The delete list `_delete_routing_data` gathers from the reported entries. */
    method GatherRoutes(which: Option<nat>, dump: seq<FlowStats>) returns (deleteList: seq<FlowStats>)
      ensures deleteList == SelectRoutes(vlanId, which, dump)
    {
      deleteList := [];
      for i := 0 to |dump|
        invariant deleteList == SelectRoutes(vlanId, which, dump[..i])
      {
        assert dump[..i + 1][..i] == dump[..i];
        if CookieToVid(dump[i].cookie) != vlanId {
          continue;
        }
        var routeId := CookieToRouteId(dump[i].cookie);
        if which.None? {
          if routeId == 0 {
            continue;
          }
        } else if which.value != routeId {
          continue;
        }
        deleteList := deleteList + [dump[i]];
      }
      assert dump[..|dump|] == dump;
    }

    /**
     `_delete_routing_data` from the switch's report on: every selected route goes with its entry, and
     an entry of a default route is replaced by the drop entry.
     */
    method DeleteRoutingData(which: Option<nat>, dump: seq<FlowStats>)
      returns (deleted: seq<nat>, mods: seq<FlowMod>)
      requires Valid(T())
      modifies routingTbl
      ensures Handled(old(T()), T(), vlanId, DeleteRoute(which, dump), mods)
      ensures Elements(deleted) == RouteStatIds(SelectRoutes(vlanId, which, dump))
    {
      ghost var before := T();
      var deleteList := GatherRoutes(which, dump);
      deleted, mods := DeleteListedRoutes(deleteList);
      HandledByNext(before, vlanId, DeleteRoute(which, dump), mods);
    }

    method DeleteListedRoutes(deleteList: seq<FlowStats>) returns (deleted: seq<nat>, mods: seq<FlowMod>)
      requires RoutesValid(routingTbl.items, routingTbl.routeId)
      modifies routingTbl`items
      ensures T() == WithoutRoutes(old(T()), RouteStatIds(deleteList))
      ensures mods == RouteStatsMods(vlanId, deleteList)
      ensures Elements(deleted) == RouteStatIds(deleteList)
    {
      ghost var before := T();
      deleted, mods := [], [];
      WithoutNone(before);
      assert RouteStatIds(deleteList[..0]) == {};
      for i := 0 to |deleteList|
        invariant T() == WithoutRoutes(before, RouteStatIds(deleteList[..i]))
        invariant mods == RouteStatsMods(vlanId, deleteList[..i])
        invariant Elements(deleted) == RouteStatIds(deleteList[..i])
      {
        var st := deleteList[i];
        mods := mods + [Delete(st.cookie)];
        var id := CookieToRouteId(st.cookie);
        ghost var ids := RouteStatIds(deleteList[..i]);
        RoutesWithoutStep(before.routes, before.nextRoute, ids, id);
        routingTbl.Delete(id);
        assert routingTbl.items == RoutesWithout(before.routes, ids + {id});
        assert T() == WithoutRoutes(before, ids + {id});
        if id !in deleted {
          deleted := deleted + [id];
          ElementsInit(deleted);
        }
        if GetPriorityType(st.priority, vlanId) == PRIORITY_DEFAULT_ROUTING {
          var drop := SetDefaultRouteDrop();
          DropModUnique(vlanId, drop);
          mods := mods + drop;
        }
        assert deleteList[..i + 1][..i] == deleteList[..i];
        RouteStatIdsInit(deleteList[..i + 1]);
      }
      assert deleteList[..|deleteList|] == deleteList;
    }

    /** An ARP packet from `ip`, seen through `hop`: `_packetin_arp` up to its forwarding part. */
    method PacketInArp(ip: Ip, hop: Hop) returns (mods: seq<FlowMod>)
      requires Valid(T())
      modifies routingTbl`items, this`learned
      ensures Handled(old(T()), T(), vlanId, Arp(ip, hop), mods)
      ensures var a := AddressOf(addressData.items, ip);
        if a.None? then T() == old(T()) && mods == []
        else if exists p :: p in old(routingTbl.items) && old(routingTbl.items)[p].gateway == ip then
          && T() == old(T()).(routes := routingTbl.items)
          && Refreshed(old(routingTbl.items), routingTbl.items, ip, hop)
          && ForwardsChanged(vlanId, old(routingTbl.items), ip, hop, mods)
        else
          && T() == old(T()).(learned := old(learned)[ip := hop])
          && mods == [Add(HostKey(vlanId, ip), Flow(AddressCookie(vlanId, a.value.id), 1800, Forward(hop)))]
    {
      ghost var before := T();
      mods := [];
      var srcAddr := addressData.GetByIp(ip);
      if srcAddr.Some? {
        var isGateway;
        isGateway, mods := UpdateRoutingTbl(ip, hop);
        if !isGateway {
          mods := LearningHostMac(srcAddr.value, ip, hop);
        }
      }
      HandledByNext(before, vlanId, Arp(ip, hop), mods);
    }

    method UpdateRoutingTbl(ip: Ip, hop: Hop) returns (isGateway: bool, mods: seq<FlowMod>)
      modifies routingTbl`items
      ensures isGateway <==> IsGateway(old(T()), ip)
      ensures T() == WithGateway(old(T()), ip, hop)
      ensures SendsRefreshed(old(T()), vlanId, ip, hop, mods)
      ensures Refreshed(old(routingTbl.items), routingTbl.items, ip, hop)
      ensures ForwardsChanged(vlanId, old(routingTbl.items), ip, hop, mods)
      ensures !isGateway ==> T() == old(T()) && mods == []
    {
      ghost var before := T();
      ghost var order: seq<Prefix> := [];
      ghost var done: set<Prefix> := {};
      isGateway, mods := false, [];
      RefreshStart(before, vlanId, ip, hop);
      var todo := routingTbl.items.Keys;
      while todo != {}
        invariant todo <= before.routes.Keys && done == before.routes.Keys - todo
        invariant RefreshedSoFar(before, vlanId, ip, hop, done, order, T(), isGateway, mods)
        invariant routingTbl.items.Keys == before.routes.Keys
        decreases |todo|
      {
        var p :| p in todo;
        ghost var now := T();
        var matches, sent := VisitRoute(p, ip, hop);
        RefreshTurn(before, vlanId, ip, hop, done, order, now, isGateway, mods, p, T(), sent);
        isGateway := isGateway || matches;
        mods := mods + sent;
        order := if Refreshes(before, p, ip, hop.mac) then order + [p] else order;
        todo, done := todo - {p}, done + {p};
      }
      RefreshEnd(before, vlanId, ip, hop, order, T(), isGateway, mods);
    }

    /** One turn of the loop: a route through `ip` takes the new hop unless its MAC is unchanged. */
    method VisitRoute(p: Prefix, ip: Ip, hop: Hop) returns (matches: bool, mods: seq<FlowMod>)
      requires p in routingTbl.items
      modifies routingTbl`items
      ensures matches <==> old(routingTbl.items)[p].gateway == ip
      ensures T() == if Refreshes(old(T()), p, ip, hop.mac) then WithHops(old(T()), {p}, hop) else old(T())
      ensures mods == if Refreshes(old(T()), p, ip, hop.mac)
                      then RouteMods(vlanId, old(routingTbl.items)[p].(hop := Some(hop))) else []
    {
      var route := routingTbl.items[p];
      matches, mods := route.gateway == ip, [];
      if matches {
        if route.hop.Some? && route.hop.value.mac == hop.mac {
          return;
        }
        WithOneHop(T(), p, hop);
        var refreshed := route.(hop := Some(hop));
        routingTbl.items := routingTbl.items[p := refreshed];
        mods := [Add(RouteKey(vlanId, refreshed), Flow(RouteCookie(vlanId, route.id), 0, Forward(hop)))];
      }
    }

    method LearningHostMac(address: Address, ip: Ip, hop: Hop) returns (mods: seq<FlowMod>)
      modifies this`learned
      ensures T() == old(T()).(learned := old(learned)[ip := hop])
      ensures mods == HostMods(vlanId, address.id, ip, hop)
    {
      mods := [Add(DstKey(GetPriority(PRIORITY_IMPLICIT_ROUTING, vlanId), Prefix(ip, 32)),
                   Flow(AddressCookie(vlanId, address.id), IDLE_TIMEOUT, Forward(hop)))];
      learned := learned[ip := hop];
    }

    /** One ARP request per route, from the router address of the gateway's network. */
    method SendArpAllGw() returns (requests: seq<(Ip, Ip)>)
      requires Valid(T())
      ensures forall r :: r in requests <==>
        exists p :: p in routingTbl.items && r.1 == routingTbl.items[p].gateway
                 && AddressOf(addressData.items, r.1).Some? && r.0 == AddressOf(addressData.items, r.1).value.gw
      ensures |requests| == |routingTbl.items|
    {
      requests := [];
      var todo := routingTbl.items.Keys;
      while todo != {}
        invariant todo <= routingTbl.items.Keys
        invariant |requests| + |todo| == |routingTbl.items|
        invariant forall r :: r in requests <==>
          exists p :: p in routingTbl.items && p !in todo && r.1 == routingTbl.items[p].gateway
                   && AddressOf(addressData.items, r.1).Some? && r.0 == AddressOf(addressData.items, r.1).value.gw
        decreases |todo|
      {
        var p :| p in todo;
        var gateway := routingTbl.items[p].gateway;
        var address := addressData.GetByIp(gateway);
        assert GatewayValid(addressData.items, gateway);
        requests := requests + [(address.value.gw, gateway)];
        todo := todo - {p};
      }
    }
  }
}
