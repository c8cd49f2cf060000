# Ryu controller: a verified model

A Dafny 4.11 model of the stateful parts of the Ryu SDN controller, with proofs of what they keep in every
run. `dafny verify dfyconfig.toml` checks the whole project.

| files | component | main results |
|---|---|---|
| `Cidr`, `RouterTables`, `RouterSteps`, `RouterEvents`, `RouterPause`, `RouterRuns`, `RouterExact`, `Router` | REST router (`rest_router.py`): the address and routing tables of one VLAN, compiled into prioritised flow entries found again by their cookies | the switch does with every IPv4 packet what the tables prescribe, and gateways have an address, exactly in the runs in which no deletion is overtaken while it waits or pauses; exact conditions for ids a caller may delete |
| `Suspend` | packets that wait for an ARP reply | never more than 50; every packet in one place; none lost exactly when no reply's handler is overtaken between two removals |
| `RouterPackets` | both of these together | a deletion fails in its pause exactly when a suspended packet it has still to remove is gone; agreement over all joint runs |
| `Bfd` | BFD session (`bfdlib.py`) between two peers over a network that loses, repeats and reorders | three-way handshake safety, detection time over runs, timer invariant, convergence in exactly five deliveries |
| `MrtBytes`, `MrtMessages`, `Mrt`, `MrtWire` | MRT records (`mrtlib.py`), RFC 6396 | exact round trips, the octets of every message, `Reader` undoes `Writer`, `parse_pre` |
| `Igmp` | IGMP querier (`igmplib.py`) | membership table and flow entries agree in every state, exactly when no report comes from the server's port |
| `Framing`, `SendQueue` | OpenFlow connection (`controller.py`) | framing gives back exactly the messages sent, however the stream is split; permits and messages are conserved |
| `DpSet` | switch registry (`dpset.py`) | stale connections evict nobody; enter and leave alternate; ports over runs |
| `Waiters` | multipart requests (`ofctl_utils.py`, `ofctl_rest.py`) | one side ends each registration; a request gets exactly its parts |
| `AppLoader` | application loader (`app_manager.py`) | ends when dependencies are acyclic, never on a closed cycle; nothing needed is missing and nothing else is loaded |
| `OfctlString` | ovs-ofctl action strings (`ofctl_string.py`) | split and join are inverse; the recursion is bounded |
| `Wrappers` | `Option` and `Result` | |

A handler runs from one wait to the next in one step: deletions in the router wait for the switch's report
and pause at addresses with suspended packets, handlers of suspended packets pause after each removal, and other
handlers run meanwhile. Handlers and loops that change state are methods of classes with the source's fields, proved
against functions of the old state (or, where the order of a Python dictionary or set is open, against relations);
the results about runs are lemmas over those functions. The switch table follows sections 5.3 and 6.4 of OpenFlow 1.3.1. The BFD model cites RFC 5880 and
RFC 5881.

Addresses are 32-bit numbers in the router (bytes in the MRT codec). What the code takes from elsewhere is a
parameter: the random jitter of the BFD period, the flow entries a switch reports, the chunks a socket delivers,
the codecs of BGP and OSPF objects (any that are invertible and know where an encoding ends), the converters of
single actions.

## What the proofs found

- A deletion waits for the switch's report, with a skip list from before the wait. A route accepted meanwhile can
  lose its gateway's address, and two overlapping deletions can overwrite a new default route
  (`RouterExact.StaleSkipList`, `RouterExact.StaleReport`).
- A deletion of addresses pauses between an address's entries and the address while it ends the threads of suspended
  packets. A timer that fires meanwhile leaves the address registered without entries, and deleting it again finds
  nothing; a route accepted meanwhile loses its gateway's address; a host learned meanwhile can keep its entry
  (`RouterPackets.TimerInPause`, `RouterPackets.RouteInPause`, `RouterPackets.HostInPause`).
- A caller may delete any address id, but id 0 removes the drop entry and an id that is a route's cookie part
  removes that route's entry (`RouterExact.DeleteAddressIdExact`); route id 0 removes the entries of addresses
  (`RouterExact.DeleteRouteIdExact`).
- A destination of length 0 that is not the default route shares its priority with host learning
  (`RouterExact.ZeroLengthDestinationTies`).
- When a timer fires while an ARP reply's handler ends another packet's thread, the handler stops with a ValueError
  and the packets it has already removed are never forwarded (`Suspend.TimerBetweenRemovals`).
- A packet suspended for a route waits under its own destination address, so the gateway's ARP reply does not
  forward it. Its own destination's reply is ignored too unless a network for it has been registered
  meanwhile (`Suspend.GatewayPacketExact`).
- A BFD session that answers its peer's poll ends its own poll without having seen a Final, even without having
  sent a Poll (`Bfd.PollEndsUnanswered`). RFC 5880 section 6.5 has it go on.
- `_remote_session_state` is never updated, so a BFD session never stops sending for demand mode
  (`Bfd.DemandStopsNothing`).
- An IPv4 MRT peer with the IPv6 type bit, or a RIB entry whose path identifier does not fit its subtype, is
  serialized to bytes that parse to something else (`MrtMessages.MsgRoundTrip`).
- `parse_pre` takes types 33 and 49 to have the extended header, but no record class for them exists, so such
  records are serialized with the common one (`Mrt.ParsePreIsLength`).
- Records with the extended header come back with length and microseconds exchanged
  (`Mrt.ExtendedRoundTrip`).
- An IGMP report from the server's own port replaces the entry that serves the group
  (`Igmp.StepKeepsAgreement`).
- Two multipart requests outstanding with one transaction id make one of them fail
  (`Waiters.SharedXidCrashes`); `set_xid` avoids that for fewer than 2^32 calls.

## Model

| member | source | states |
|---|---|---|
| `Cidr.MaskValue` | docker/access/ryu/ryu/app/rest_router.py:1884-1891 | the shifted and truncated mask is 2^32 - 2^(32-len) for every length 0..32 |
| `Cidr.ApplyMaskIsAnd` | docker/access/ryu/ryu/app/rest_router.py:1894-1899 | clearing the low bits is the bitwise AND with that mask |
| `Cidr.ApplyMaskNested` | docker/access/ryu/ryu/app/rest_router.py:1894-1899 | masking with the longer length first does not change what the shorter mask gives |
| `Cidr.GatewayTestIsOverlap` | docker/access/ryu/ryu/app/rest_router.py:1261-1284 | the two-way gateway test of `AddressData.add` holds if and only if the two networks share an address, for all lengths |
| `RouterTables.AddressOfUnique` | docker/access/ryu/ryu/app/rest_router.py:1296-1305 | with disjoint networks the address found for an IP does not depend on the order of the dictionary |
| `RouterTables.LongestExists` | docker/access/ryu/ryu/app/rest_router.py:1370-1389 | whenever a static route matches, one of the matching routes is longest |
| `RouterTables.LongestUnique` | docker/access/ryu/ryu/app/rest_router.py:1370-1389 | the longest matching route is unique, so the lookup finds it in any order |
| `RouterTables.CookiePartition` | docker/access/ryu/ryu/app/rest_router.py:626-649 | encoding and decoding cookies are inverse for ids in 1..0xffff, and address, route and default cookies never meet |
| `RouterTables.CookieFields` | docker/access/ryu/ryu/app/rest_router.py:626-649 | in every cookie the VLAN is above bit 32, a route id in bits 16 to 31 and an address id all below bit 32 |
| `RouterTables.KeyPriorities` | docker/access/ryu/ryu/app/rest_router.py:153-192 | the priority of each kind of entry, as a number |
| `RouterTables.DecideJustified` | docker/access/ryu/ryu/app/rest_router.py:721-797 | each decision rests on an entry of the tables that covers the packet |
| `RouterTables.CompilationPreservesMeaning` | docker/access/ryu/ryu/app/rest_router.py:168-192 | if the switch holds the entries the tables call for, it selects exactly one entry for every IPv4 packet, and its action is what the tables prescribe |
| `RouterTables.PrescribedTreats` | docker/access/ryu/ryu/app/rest_router.py:721-797 | what the tables prescribe for a packet, from addresses, learned hosts and routes alone: a packet for the router goes to the controller, one inside a network is switched, one for a learned host is forwarded to it; otherwise the longest static route, an unknown host's network and the default route decide, and a route forwards through the hop its gateway answered from or, unanswered, asks the controller |
| `RouterTables.SelectedTreats` | docker/access/ryu/ryu/app/rest_router.py:1164-1213 | whatever entry the switch selects for a packet treats it like that, so the entry of a route whose gateway has answered forwards to that gateway |
| `RouterSteps.AddKeepsDisjoint` | docker/access/ryu/ryu/app/rest_router.py:1261-1284 | an accepted address leaves the registered networks pairwise disjoint |
| `RouterSteps.NextIdCounts` | docker/access/ryu/ryu/app/rest_router.py:1278-1283 | ids count up by one, and from the largest 32-bit number on to 1 |
| `RouterSteps.AddAddressValid` | docker/access/ryu/ryu/app/rest_router.py:721-758 | an accepted address keeps every invariant of the tables |
| `RouterSteps.AddAddressAgrees` | docker/access/ryu/ryu/app/rest_router.py:721-758 | the entries sent for an accepted address bring the switch into agreement with the new tables |
| `RouterSteps.AddRouteKeeps` | docker/access/ryu/ryu/app/rest_router.py:760-797 | the entry sent for an accepted route replaces what it must and keeps tables and switch in agreement |
| `RouterSteps.LearnGatewaysKeeps` | docker/access/ryu/ryu/app/rest_router.py:1164-1191 | refreshing the routes through a gateway, in any order, keeps the agreement |
| `RouterSteps.LearnHostKeeps` | docker/access/ryu/ryu/app/rest_router.py:1193-1213 | the entry for a learned host keeps the agreement |
| `RouterSteps.ExpireHostKeeps` | docker/access/ryu/ryu/app/rest_router.py:1193-1213 | when the idle timeout removes a host entry the switch still agrees with the tables without that host |
| `RouterSteps.DeleteAddressesKeep` | docker/access/ryu/ryu/app/rest_router.py:811-856 | deleting unrelated addresses by cookie keeps tables valid and switch in agreement |
| `RouterSteps.DeleteRoutesKeep` | docker/access/ryu/ryu/app/rest_router.py:875-914 | deleting reported routes by cookie, however old the report, keeps the tables valid, and the switch in agreement if and only if no entry of an earlier default route is among them while another default route is registered |
| `RouterEvents.FilterAddressesSound` | docker/access/ryu/ryu/app/rest_router.py:821-841 | exactly the reported entries of the selected addresses that are not in the skip list are put on the delete list |
| `RouterEvents.SelectRoutesSound` | docker/access/ryu/ryu/app/rest_router.py:884-898 | exactly the reported entries of the selected routes are put on the delete list |
| `RouterEvents.AddressListKeepsOrder` | docker/access/ryu/ryu/app/rest_router.py:821-841 | in the order of the report, each reported entry at most once |
| `RouterEvents.RouteListKeepsOrder` | docker/access/ryu/ryu/app/rest_router.py:884-898 | in the order of the report, each reported entry at most once |
| `RouterEvents.SkipIdsAreRelated` | docker/access/ryu/ryu/app/rest_router.py:924-937 | an address is skipped if and only if some route has its gateway in that network |
| `RouterEvents.DeleteRouteStepExact` | docker/access/ryu/ryu/app/rest_router.py:884-914 | the half of a route deletion after the report keeps the agreement if and only if it overwrites no default route that stays |
| `RouterEvents.GatewayRefreshed` | docker/access/ryu/ryu/app/rest_router.py:1164-1178 | an ARP packet gives every route through its sender the sender's MAC, and leaves all that had it or go elsewhere as they were |
| `RouterEvents.RefreshForwards` | docker/access/ryu/ryu/app/rest_router.py:1179-1189 | exactly the routes whose MAC changed are sent, each with an entry that forwards through the hop the packet came from |
| `RouterEvents.UnsafeDeleteStrandsGateway` | docker/access/ryu/ryu/app/rest_router.py:841-856 | deleting an address some gateway lies in, which only an outdated skip list allows, leaves that gateway without an address |
| `RouterEvents.StepKeeps` | docker/access/ryu/ryu/app/rest_router.py:692-914 | every handler that acts on nothing out of date keeps the tables valid and the switch in agreement |
| `RouterEvents.HandledByNext` | docker/access/ryu/ryu/app/rest_router.py:692-914 | what every handler owes, from the tables it makes and the entries it sends |
| `RouterPause.StrikeKeeps` | docker/access/ryu/ryu/app/rest_router.py:841-850 | removing the entries with an address's cookie leaves the switch with what the tables call for, less that address's entries, and without that address's left-over hosts |
| `RouterPause.ForgetKeeps` | docker/access/ryu/ryu/app/rest_router.py:850-856 | when the address goes after the pause, the hosts learned in the pause are what is left over on the switch |
| `RouterPause.EventKeeps` | docker/access/ryu/ryu/app/rest_router.py:692-998 | every other handler that acts on nothing out of date keeps this, whatever deletions pause |
| `RouterPause.AbandonedAddress` | docker/access/ryu/ryu/app/rest_router.py:841-856 | a deletion that ends in its pause leaves the registered address without entries, unless another deletion pauses at it too |
| `RouterRuns.ForgetIsSafe` | docker/access/ryu/ryu/app/rest_router.py:819-856 | an address on a delete list is needed by no route if and only if no route added since the deletion asked goes through it |
| `RouterRuns.StepExact` | docker/access/ryu/ryu/app/rest_router.py:692-1213 | each step of a run, with any number of deletions waiting for reports or pausing at addresses, keeps tables and switch consistent if and only if it overwrites no newer default route, removes no address that a newer route needs or whose newly learned hosts nobody will remove, and abandons no address |
| `RouterRuns.ReachableAgrees` | docker/access/ryu/ryu/app/rest_router.py:598-613 | in every state of a run the tables are valid and the switch holds what they call for, up to what running deletions have already removed or have still to remove, if and only if every step is safe in this sense |
| `RouterRuns.SettledAgrees` | docker/access/ryu/ryu/app/rest_router.py:598-613 | whenever no deletion is under way, such a run has valid tables and a switch in full agreement |
| `RouterRuns.EveryRunForwardsAsPrescribed` | docker/access/ryu/ryu/app/rest_router.py:692-1213 | whenever no deletion is under way, such a run has each IPv4 packet treated as the tables prescribe |
| `RouterRuns.GatewaysStayRegistered` | docker/access/ryu/ryu/app/rest_router.py:811-873 | in every state of a run each gateway lies in a registered network and is not its router address, if and only if no route is added through an address between the question of its deletion and the moment the address is removed |
| `RouterRuns.EveryGatewayHasAddress` | docker/access/ryu/ryu/app/rest_router.py:1127-1131 | after every run without such a route the lookup of a gateway's address never fails |
| `RouterPackets.PauseEndsExactly` | docker/access/ryu/ryu/app/rest_router.py:1414-1424 | a deletion's pause ends with a ValueError if and only if a timer or another handler took out a suspended packet it had still to remove |
| `RouterPackets.WholeRunAgrees` | docker/access/ryu/ryu/app/rest_router.py:811-873 | in every state of a run of tables, switch and suspended packets together, where a deletion pauses exactly for the suspended packets of an address's network, the tables are valid and the switch holds what they call for, up to what running deletions have still to do, if and only if every move is safe, a pause whose packet was taken out counting as an abandoned address |
| `RouterPackets.WholeRunForwards` | docker/access/ryu/ryu/app/rest_router.py:811-873 | whenever no deletion is under way, such a run has each IPv4 packet treated as the tables prescribe |
| `RouterPackets.TimerInPause` | docker/access/ryu/ryu/app/rest_router.py:844-852 | a run in which a packet's timer fires in the pause: the address stays registered without its entries, and deleting it again finds nothing in any report |
| `RouterPackets.RouteInPause` | docker/access/ryu/ryu/app/rest_router.py:844-852 | a run in which a route through the address is accepted in the pause: its gateway ends up in no registered network |
| `RouterPackets.HostInPause` | docker/access/ryu/ryu/app/rest_router.py:844-852 | a run in which a host of the network is learned in the pause: its entry outlives the address |
| `RouterExact.StaleSkipList` | docker/access/ryu/ryu/app/rest_router.py:819-856 | a run in which a route is added while the deletion of its gateway's address waits: the route's gateway ends up in no registered network |
| `RouterExact.StaleReport` | docker/access/ryu/ryu/app/rest_router.py:884-914 | a run in which two deletions of all routes wait at once and a new default route comes between their ends: the switch drops what that route is to forward |
| `RouterExact.PresentReportIsSafe` | docker/access/ryu/ryu/app/rest_router.py:884-914 | a report of the present table never makes a route deletion overwrite a default route that stays |
| `RouterExact.DeleteAllAddresses` | docker/access/ryu/ryu/app/rest_router.py:811-856 | with a complete report, deleting all addresses removes an address if and only if no route depends on it |
| `RouterExact.DeleteAllRoutes` | docker/access/ryu/ryu/app/rest_router.py:875-914 | with a complete report, deleting all routes removes every route and leaves the drop entry |
| `RouterExact.DeleteAddressIdExact` | docker/access/ryu/ryu/app/rest_router.py:811-856 | for any id a caller passes: with a complete report the whole deletion keeps the switch in agreement if and only if the id is not the reserved 0 under the drop entry nor the cookie part of a live route |
| `RouterExact.DeleteRouteIdExact` | docker/access/ryu/ryu/app/rest_router.py:875-914 | for any id a caller passes: with a complete report the switch stays in agreement if and only if the id is not 0 |
| `RouterExact.DeleteRouteZeroDisagrees` | docker/access/ryu/ryu/app/rest_router.py:875-914 | deleting "route 0" removes the entries of a reported address that stays registered |
| `RouterExact.PauseExact` | docker/access/ryu/ryu/app/rest_router.py:841-856 | a handler that runs in the pause at an address leaves the switch in agreement at the end of the whole delete list, if and only if it learned no host of the address or the address has another entry on the list |
| `RouterExact.ZeroLengthDestinationTies` | docker/access/ryu/ryu/app/rest_router.py:168-192 | with the entry of a destination of length 0 that is not the default route, the switch selects an entry for a packet if and only if the packet is not for a host of a registered network whose MAC is unknown |
| `Router.AddressData.Add` | docker/access/ryu/ryu/app/rest_router.py:1261-1285 | registers exactly the networks that overlap none, with the next id; otherwise changes nothing and says why |
| `Router.AddressData.Delete` | docker/access/ryu/ryu/app/rest_router.py:1287-1291 | removes exactly the address with the id |
| `Router.AddressData.GetById` | docker/access/ryu/ryu/app/rest_router.py:1296-1305 | finds an address with the id if there is one |
| `Router.AddressData.GetByIp` | docker/access/ryu/ryu/app/rest_router.py:1296-1305 | finds the one registered network that contains the IP |
| `Router.RoutingTable.Add` | docker/access/ryu/ryu/app/rest_router.py:1325-1359 | adds or replaces the route for the destination unless the canonical destination is taken |
| `Router.RoutingTable.Delete` | docker/access/ryu/ryu/app/rest_router.py:1361-1365 | removes exactly the route with the id |
| `Router.RoutingTable.GetByDst` | docker/access/ryu/ryu/app/rest_router.py:1370-1391 | the scan returns the longest static route that covers the destination; without one, the default route if there is one |
| `Router.VlanRouter.SetAddressData` | docker/access/ryu/ryu/app/rest_router.py:721-758 | accepts exactly the networks that overlap none and leaves every switch that agreed in agreement |
| `Router.VlanRouter.SetRoutingData` | docker/access/ryu/ryu/app/rest_router.py:760-776 | accepts exactly routes to a reachable gateway and a free destination, says which of these fails, and keeps the agreement |
| `Router.VlanRouter.SetDefaultRouteDrop` | docker/access/ryu/ryu/app/rest_router.py:778-785 | one added entry, with which an empty switch agrees with the empty tables |
| `Router.VlanRouter.ChkAddrRelationRoute` | docker/access/ryu/ryu/app/rest_router.py:924-937 | returns the ids that must be skipped |
| `Router.VlanRouter.AskAddressDeletion` | docker/access/ryu/ryu/app/rest_router.py:811-823 | before the wait: notes exactly the selected addresses some route depends on |
| `Router.VlanRouter.DeleteAddressData` | docker/access/ryu/ryu/app/rest_router.py:823-856 | after the wait, up to the first address with suspended packets: deletes the selected addresses outside the given skip list with their entries; without such a pause it keeps the agreement for ids that fit unless a route depends on one of them by now |
| `Router.VlanRouter.ResumeDeletion` | docker/access/ryu/ryu/app/rest_router.py:850-856 | after a pause: removes the address and goes on to the next pause or the end |
| `Router.VlanRouter.TurnOf` | docker/access/ryu/ryu/app/rest_router.py:842-856 | one turn of the loop: the entries go, and the address too unless it is unregistered or has suspended packets |
| `Router.VlanRouter.DeleteRoutingData` | docker/access/ryu/ryu/app/rest_router.py:884-922 | after the wait: deletes the selected routes with their entries, and keeps the agreement for ids that fit unless a newer default route is overwritten |
| `Router.VlanRouter.PacketInArp` | docker/access/ryu/ryu/app/rest_router.py:969-998 | an ARP packet from a registered network gives its sender's routes the new hop with entries that forward through it, or teaches a host with an entry that forwards to it for 1800 seconds, and keeps the agreement |
| `Router.VlanRouter.UpdateRoutingTbl` | docker/access/ryu/ryu/app/rest_router.py:1164-1191 | every route through the sender has its MAC then, every entry sent is for a route whose MAC changed and forwards through the hop, every such route is sent, and it reports whether the sender is a gateway |
| `Router.VlanRouter.LearningHostMac` | docker/access/ryu/ryu/app/rest_router.py:1193-1213 | records the host and sends its entry |
| `Router.VlanRouter.SendArpAllGw` | docker/access/ryu/ryu/app/rest_router.py:1127-1131 | one request per route, for its gateway, from the router address of the network the gateway lies in |
| `Suspend.EveryRunAccountsForAll` | docker/access/ryu/ryu/app/rest_router.py:1404-1434 | in every run, whatever interleaves between two removals: the limit of 50 holds, exactly the listed packets have a running timer, and every packet ever suspended is listed, resolved or held by a handler |
| `Suspend.OnePlaceEach` | docker/access/ryu/ryu/app/rest_router.py:1404-1434 | in every state of a run each suspended packet is in exactly one of these places |
| `Suspend.ResolvedOnce` | docker/access/ryu/ryu/app/rest_router.py:1404-1434 | no packet is resolved twice |
| `Suspend.DoomedExactly` | docker/access/ryu/ryu/app/rest_router.py:1414-1424 | a handler that removes packets fails, or is bound to, if and only if a timer or another handler took out a packet it had selected and not yet reached |
| `Suspend.HandlerEndsExactly` | docker/access/ryu/ryu/app/rest_router.py:1414-1424 | a handler that is through removed all it selected if and only if it was never overtaken like that |
| `Suspend.AnsweredPackets` | docker/access/ryu/ryu/app/rest_router.py:1033-1046 | in every run a packet is forwarded, or in the hands of a reply's handler, if and only if an ARP reply came from its own destination, in a registered network, while it waited |
| `Suspend.AnsweredAreForwarded` | docker/access/ryu/ryu/app/rest_router.py:1033-1046 | once no handler pauses, every packet whose destination answered in time is forwarded, if and only if no reply's handler was overtaken |
| `Suspend.BufferedOrResolved` | docker/access/ryu/ryu/app/rest_router.py:1404-1434 | once no handler pauses, every packet ever suspended is listed with its timer running or was resolved, if and only if no reply's handler was overtaken |
| `Suspend.TimerBetweenRemovals` | docker/access/ryu/ryu/app/rest_router.py:1033-1046 | a run in which the timer of a second packet fires while the first one's thread is ended: the first packet is neither listed nor resolved, although its destination answered |
| `Suspend.EveryRunSettles` | docker/access/ryu/ryu/app/rest_router.py:1414-1424 | from every state the handlers that pause come to their ends by going on |
| `Suspend.EveryOutcomeExplained` | docker/access/ryu/ryu/app/rest_router.py:1033-1046 | a packet is forwarded, timed out or dropped only by an event that calls for it |
| `Suspend.GatewayPacketExact` | docker/access/ryu/ryu/app/rest_router.py:1091-1107 | a packet whose ARP request asked about a gateway came when no network contained its destination; it is forwarded if and only if an ARP reply came from its destination itself in time, and only after a network for that destination was registered |
| `Suspend.GatewayRepliesForwardNothing` | docker/access/ryu/ryu/app/rest_router.py:1033-1046 | without such a network the packet is never forwarded, whatever the gateway answers |
| `Suspend.RequestAsks` | docker/access/ryu/ryu/app/rest_router.py:1091-1107 | a host of a registered network is asked itself; any other destination is asked for through the gateway of the longest static route or, without one, of the default route, from the router address of the gateway's network |
| `Suspend.ArriveSuspends` | docker/access/ryu/ryu/app/rest_router.py:1078-1109 | a packet joins the list, last, if and only if the list holds fewer than 50 and there is somebody to ask |
| `Suspend.RepliesForwardInOrder` | docker/access/ryu/ryu/app/rest_router.py:1033-1046 | in every run an ARP reply's handler that does not fail forwards all that waited for its host when the reply came, one after the other in the order in which they came |
| `Suspend.RemoveAtIsKeep` | docker/access/ryu/ryu/app/rest_router.py:1422-1424 | removing one packet from a list without repetition removes exactly that packet |
| `Suspend.SuspendPacketList.PacketInToNode` | docker/access/ryu/ryu/app/rest_router.py:1078-1109 | looks up the address, route and gateway, suspends the packet unless the list is full or there is nobody to ask, and returns the ARP request |
| `Suspend.SuspendPacketList.GetData` | docker/access/ryu/ryu/app/rest_router.py:1426-1427 | the packets for one destination, in order |
| `Suspend.SuspendPacketList.DeletePacket` | docker/access/ryu/ryu/app/rest_router.py:1414-1424 | removes the packet and ends its thread, or reports that the packet is gone |
| `Suspend.SuspendPacketList.Continue` | docker/access/ryu/ryu/app/rest_router.py:1414-1424 | one turn of a handler between two pauses |
| `Suspend.SuspendPacketList.ArpReply` | docker/access/ryu/ryu/app/rest_router.py:1033-1046 | the reply's handler up to its first pause |
| `Suspend.SuspendPacketList.DeleteAddress` | docker/access/ryu/ryu/app/rest_router.py:1414-1424 | the deletion's handler up to its first pause |
| `Suspend.SuspendPacketList.WaitArpReplyTimer` | docker/access/ryu/ryu/app/rest_router.py:1429-1433 | a packet whose thread still runs is in the list, and is reported unreachable and removed |
| `Bfd.UpMeansHeard` | docker/access/ryu/ryu/lib/bfdlib.py:229-364 | for every loss, duplication, reordering and timeout: an end that is Up has its peer processing its packets already, and the timer invariants hold |
| `Bfd.StepKeepsNet` | docker/access/ryu/ryu/lib/bfdlib.py:229-364 | each send, delivery and timeout keeps the invariant of both ends and of all packets in flight |
| `Bfd.PacketsReachPeer` | docker/access/ryu/ryu/lib/bfdlib.py:860-970 | every packet in flight passes the checks and is taken by the session it is meant for; Init and Up packets carry its discriminator; none polls and answers a poll at once |
| `Bfd.FirstMatchFinds` | docker/access/ryu/ryu/lib/bfdlib.py:911-926 | the search over sessions finds the only one that matches |
| `Bfd.RecvBfdPkt` | docker/access/ryu/ryu/lib/bfdlib.py:860-970 | takes a packet if and only if it passes the checks and some session matches it, by its discriminator or, while that is 0, by switch and port |
| `Bfd.ReceiveTimers` | docker/access/ryu/ryu/lib/bfdlib.py:229-308 | receiving a packet keeps the timer invariant |
| `Bfd.TimeOutTimers` | docker/access/ryu/ryu/lib/bfdlib.py:337-364 | a detection timeout keeps the timer invariant |
| `Bfd.FreshTimers` | docker/access/ryu/ryu/lib/bfdlib.py:138-169 | a new session satisfies the timer invariant |
| `Bfd.ReceiveSetsDetection` | docker/access/ryu/ryu/lib/bfdlib.py:289-297 | a packet in any state but AdminDown sets the detection time to its interval times its multiplier if it polls or none is set, and leaves it otherwise |
| `Bfd.DetectionTimeOfRun` | docker/access/ryu/ryu/lib/bfdlib.py:289-297 | in every run the detection time of an end is the interval times the multiplier of the last poll it heard or, while it heard none, of the first packet; a product of zero leaves the choice to the next packet |
| `Bfd.ComingUpDetects` | docker/access/ryu/ryu/lib/bfdlib.py:289-297 | an end that is Init or Up has as its detection time the peer's multiplier times one second or the peer's configured interval, positive when that interval is |
| `Bfd.ReceiveLearns` | docker/access/ryu/ryu/lib/bfdlib.py:229-309 | what the session learns of its peer, the diagnostic when the peer takes it down, and the Final it owes to a poll |
| `Bfd.TimeOutTakesDown` | docker/access/ryu/ryu/lib/bfdlib.py:355-360 | a detection timeout takes an Init or Up session Down, with its diagnostic and the slow interval, and does nothing else |
| `Bfd.DemandStopsNothing` | docker/access/ryu/ryu/lib/bfdlib.py:387-408 | a session is silent exactly while its peer asks for no packets; demand mode stops nothing |
| `Bfd.SilentWhenAsked` | docker/access/ryu/ryu/lib/bfdlib.py:387-408 | in every run an end is silent if and only if its peer wants no packets and it has heard from it |
| `Bfd.PeriodBounds` | docker/access/ryu/ryu/lib/bfdlib.py:366-383 | the transmit period is between 75% and 100% (90% with multiplier 1) of the larger interval |
| `Bfd.PollEnds` | docker/access/ryu/ryu/lib/bfdlib.py:424-432 | a poll ends with a Final received or, answered or not, with a Final sent |
| `Bfd.PollIsAnswered` | docker/access/ryu/ryu/lib/bfdlib.py:418-428 | the packet after a poll carries the Final, and polls only if it answers none |
| `Bfd.FinalsAnswerPolls` | docker/access/ryu/ryu/lib/bfdlib.py:418-428 | in every run a Final is only sent by an end that has heard a Poll |
| `Bfd.NextStateIs` | docker/access/ryu/ryu/lib/bfdlib.py:250-271 | the state machine by the state it goes to |
| `Bfd.PollEndsUnanswered` | docker/access/ryu/ryu/lib/bfdlib.py:387-512 | a run of two new sessions after which the poll every session starts with is over at one end, although that end has received no Final and sent no Poll |
| `Bfd.ReceiveState` | docker/access/ryu/ryu/lib/bfdlib.py:250-271 | the session state after a packet is that of the state machine |
| `Bfd.FiveDeliveries` | docker/access/ryu/ryu/lib/bfdlib.py:250-271 | k prompt deliveries in turn bring both ends Up from every pair of states if and only if k is at least 5 |
| `Bfd.BothComeUp` | docker/access/ryu/ryu/lib/bfdlib.py:229-271 | from every reachable state of two sessions that let each other send, five prompt deliveries bring both Up |
| `Bfd.BfdSession.UpdateXmitPeriod` | docker/access/ryu/ryu/lib/bfdlib.py:366-385 | the new period |
| `Bfd.BfdSession.SetState` | docker/access/ryu/ryu/lib/bfdlib.py:311-335 | the new state with its interval, poll and period |
| `Bfd.BfdSession.Recv` | docker/access/ryu/ryu/lib/bfdlib.py:229-309 | the session after a packet, with the detection time that `ReceiveSetsDetection` pins |
| `Bfd.BfdSession.RecvTimeout` | docker/access/ryu/ryu/lib/bfdlib.py:355-360 | the session after a detection timeout |
| `Bfd.BfdSession.SendOnce` | docker/access/ryu/ryu/lib/bfdlib.py:387-512 | the packet sent, if any, field by field, and the flags cleared by sending it |
| `MrtBytes.GetPutAttrs` | docker/access/ryu/ryu/lib/mrtlib.py:369-374 | parsing serialized path attributes gives them back |
| `MrtBytes.ParseAttrs` | docker/access/ryu/ryu/lib/mrtlib.py:933-937 | the parsing loop |
| `MrtBytes.SerializeAttrs` | docker/access/ryu/ryu/lib/mrtlib.py:941-944 | the serializing loop |
| `MrtBytes.ParseList` | docker/access/ryu/ryu/lib/mrtlib.py:503-507 | the loop over a count of elements |
| `MrtMessages.PeerRoundTrip` | docker/access/ryu/ryu/lib/mrtlib.py:573-617 | a peer comes back as it was fixed up if and only if it is not an IPv4 peer with the IPv6 bit |
| `MrtMessages.PeersRoundTrip` | docker/access/ryu/ryu/lib/mrtlib.py:490-527 | a list of such peers comes back, with exactly the bytes after it |
| `MrtMessages.ParsedPeersOk` | docker/access/ryu/ryu/lib/mrtlib.py:573-597 | parsed peers never are IPv4 peers with the IPv6 bit |
| `MrtMessages.SerializePeers` | docker/access/ryu/ryu/lib/mrtlib.py:523-524 | the serializing loop over peers |
| `MrtMessages.EntryRoundTrip` | docker/access/ryu/ryu/lib/mrtlib.py:919-956 | a RIB entry parsed the way its path identifier calls for comes back, with exactly the bytes after it |
| `MrtMessages.EntriesRoundTrip` | docker/access/ryu/ryu/lib/mrtlib.py:660-670 | a list of entries comes back when each has a path identifier exactly if the subtype is an additional-path one |
| `MrtMessages.ParsedEntriesOk` | docker/access/ryu/ryu/lib/mrtlib.py:919-937 | parsed entries have a path identifier exactly if the subtype is an additional-path one |
| `MrtMessages.CountedRoundTrip` | docker/access/ryu/ryu/lib/mrtlib.py:660-690 | the counted entries come back if and only if their path identifiers fit the subtype |
| `MrtMessages.PeerIndexTableRoundTrip` | docker/access/ryu/ryu/lib/mrtlib.py:490-527 | a peer index table comes back if and only if all its peers do |
| `MrtMessages.RibRoundTrip` | docker/access/ryu/ryu/lib/mrtlib.py:660-698 | a RIB message comes back if and only if its entries do |
| `MrtMessages.RibGenericRoundTrip` | docker/access/ryu/ryu/lib/mrtlib.py:832-873 | a generic RIB message comes back if and only if its entries do |
| `MrtMessages.TableDumpRoundTrip` | docker/access/ryu/ryu/lib/mrtlib.py:363-396 | a TABLE_DUMP message comes back with its attribute length fixed up |
| `MrtMessages.EndsRoundTrip` | docker/access/ryu/ryu/lib/mrtlib.py:1054-1074 | AS numbers, interface and addresses of a BGP4MP message come back with the family fixed up |
| `MrtMessages.StateChangeRoundTrip` | docker/access/ryu/ryu/lib/mrtlib.py:1054-1102 | a state change comes back |
| `MrtMessages.BgpMessageRoundTrip` | docker/access/ryu/ryu/lib/mrtlib.py:1142-1190 | a BGP message record body comes back |
| `MrtMessages.OspfRoundTrip` | docker/access/ryu/ryu/lib/mrtlib.py:280-293 | an OSPFv2 message comes back |
| `MrtMessages.MsgRoundTrip` | docker/access/ryu/ryu/lib/mrtlib.py:106-124 | every registered message comes back as it was fixed up if and only if it is faithful |
| `MrtWire.MessageIsLaidOut` | docker/access/ryu/ryu/lib/mrtlib.py:641-957 | every registered message is serialized field by field as the diagrams of RFC 6396 have it, big-endian: IPv4 prefixes with their codec for subtypes 2, 3, 8 and 9 and IPv6 prefixes with theirs for 4, 5, 10 and 11, a path identifier where the entry has one, AS numbers of four octets for subtypes 4, 5 and 7 |
| `MrtWire.RecordIsLaidOut` | docker/access/ryu/ryu/lib/mrtlib.py:127-206 | the header of every record, with microseconds exactly for type 17, and the length of the message |
| `MrtWire.RegisteredClasses` | docker/access/ryu/ryu/lib/mrtlib.py:50-58 | the message classes, by the numbers of types and subtypes |
| `MrtWire.UnregisteredSubtypes` | docker/access/ryu/ryu/lib/mrtlib.py:107-124 | a subtype without a class is an error, an unknown type is not |
| `MrtWire.RibIsRead` | docker/access/ryu/ryu/lib/mrtlib.py:673-681 | whatever RIB record is parsed: number, prefix with the codec of its family, count, and path identifiers exactly for subtypes 8 to 11 |
| `MrtWire.RibGenericIsRead` | docker/access/ryu/ryu/lib/mrtlib.py:845-853 | whatever generic RIB record is parsed: path identifiers exactly for subtype 12 |
| `MrtWire.TableDumpIsRead` | docker/access/ryu/ryu/lib/mrtlib.py:364-378 | whatever TABLE_DUMP record is parsed: addresses of four octets for subtype 1, of sixteen for 2 |
| `MrtWire.EndsAreRead` | docker/access/ryu/ryu/lib/mrtlib.py:1055-1078 | whatever BGP4MP message is parsed: AS numbers of four octets for subtypes 4, 5 and 7 and of two otherwise, addresses of the family said |
| `MrtWire.ShortBlockIsRead` | docker/access/ryu/ryu/lib/mrtlib.py:931-937 | an attribute length that says more than there is takes the attributes that are there |
| `MrtWire.FixedIsWritten` | docker/access/ryu/ryu/lib/mrtlib.py:130-138 | the lengths, counts and families that `serialize` fixes up are those it wrote |
| `MrtWire.ReadsOn` | docker/access/ryu/ryu/lib/mrtlib.py:1300-1311 | the reader gives what was written and goes on with whatever follows |
| `MrtWire.ShortEndIsIgnored` | docker/access/ryu/ryu/lib/mrtlib.py:1300-1311 | fewer bytes than a header at the end are passed over in silence |
| `MrtWire.UnregisteredRaises` | docker/access/ryu/ryu/lib/mrtlib.py:1300-1311 | a record of a subtype without a class ends the reading with an exception, after any records that were written |
| `Mrt.HeaderRoundTrip` | docker/access/ryu/ryu/lib/mrtlib.py:76-81 | the common header comes back |
| `Mrt.RecordRoundTrip` | docker/access/ryu/ryu/lib/mrtlib.py:106-138 | parsing a serialized common-header record followed by any bytes gives the fixed-up record and exactly those bytes, if and only if its message is faithful |
| `Mrt.ExtendedRoundTrip` | docker/access/ryu/ryu/lib/mrtlib.py:187-205 | with the extended header length and microseconds come back exchanged; the record comes back if and only if they are equal |
| `Mrt.ParsePreIsLength` | docker/access/ryu/ryu/lib/mrtlib.py:88-104 | `parse_pre` equals the serialized length if and only if the type is not 33 or 49 |
| `Mrt.NextReads` | docker/access/ryu/ryu/lib/mrtlib.py:1300-1311 | one step of the reader takes exactly the record written |
| `Mrt.ReaderUndoesWriter` | docker/access/ryu/ryu/lib/mrtlib.py:1300-1311 | iterating the reader over written records gives them in order and then stops |
| `Mrt.RereadIsFixed` | docker/access/ryu/ryu/lib/mrtlib.py:1300-1311 | what is read is the fixed-up record, for the common header |
| `Mrt.Writer.Write` | docker/access/ryu/ryu/lib/mrtlib.py:1365-1370 | appends the serialized record |
| `Mrt.Reader.Next` | docker/access/ryu/ryu/lib/mrtlib.py:1300-1311 | reads one record and moves behind it, or stops |
| `Mrt.Reader.Iterate` | docker/access/ryu/ryu/lib/mrtlib.py:1296-1314 | reads until the reader stops |
| `Igmp.ReportAgrees` | docker/access/ryu/ryu/lib/igmplib.py:398-424 | a report from another port than the server's keeps the agreement |
| `Igmp.LeaveAgrees` | docker/access/ryu/ryu/lib/igmplib.py:426-444 | a leave keeps the agreement |
| `Igmp.ExpireAgrees` | docker/access/ryu/ryu/lib/igmplib.py:368-393 | expiry keeps the agreement |
| `Igmp.StepKeepsAgreement` | docker/access/ryu/ryu/lib/igmplib.py:359-444 | a step keeps table and switch in agreement if and only if it is not a report from the server's port |
| `Igmp.EveryRunAgrees` | docker/access/ryu/ryu/lib/igmplib.py:359-444 | in every state of a run the server's entry lists exactly the members once each and every member has its controller entry, if and only if no report comes from the server's port |
| `Igmp.ReportedSince` | docker/access/ryu/ryu/lib/igmplib.py:359-444 | a port is marked as replied if and only if its last word since the query was a report |
| `Igmp.ExpiryKeepsExactlyTheHeard` | docker/access/ryu/ryu/lib/igmplib.py:368-393 | expiry leaves exactly the ports whose last word since the query was a report, and no empty group |
| `Igmp.MembersExactly` | docker/access/ryu/ryu/lib/igmplib.py:359-444 | in every run a port is a member of a group if and only if its last word on it was a report and no whole query has passed since, and counts as having replied if no query began since |
| `Igmp.IgmpQuerier.DoReport` | docker/access/ryu/ryu/lib/igmplib.py:398-424 | the table and the entries after a report |
| `Igmp.IgmpQuerier.DoLeave` | docker/access/ryu/ryu/lib/igmplib.py:426-444 | the table and the entries after a leave |
| `Igmp.IgmpQuerier.ResetReplies` | docker/access/ryu/ryu/lib/igmplib.py:359-362 | no port is marked as replied |
| `Igmp.IgmpQuerier.ExpireOne` | docker/access/ryu/ryu/lib/igmplib.py:370-391 | one group after the response time |
| `Igmp.IgmpQuerier.QueryExpired` | docker/access/ryu/ryu/lib/igmplib.py:368-393 | the table and the entries after the response time |
| `Framing.FramesAreTheStream` | docker/access/ryu/ryu/controller/controller.py:346-380 | the frames and the leftover, joined, are the stream, and the leftover holds no complete frame |
| `Framing.FramesAreUnique` | docker/access/ryu/ryu/controller/controller.py:346-380 | there is no other way to cut the stream like that |
| `Framing.FramesAppend` | docker/access/ryu/ryu/controller/controller.py:346-380 | bytes that arrive later continue where the leftover ends |
| `Framing.ChunksDoNotMatter` | docker/access/ryu/ryu/controller/controller.py:325-380 | messages and leftover depend on the received bytes alone, not on how they were split |
| `Framing.BufferIsBounded` | docker/access/ryu/ryu/controller/controller.py:325-380 | the buffer never exceeds 65535 + 7 bytes |
| `Framing.BoundIsReached` | docker/access/ryu/ryu/controller/controller.py:325-380 | some chunks, none longer than what the loop asked for, fill the buffer to that bound |
| `Framing.RecvLoop` | docker/access/ryu/ryu/controller/controller.py:325-380 | the bytes received before the loop ends are the messages dispatched, in order, and a part of one more that stays in the buffer, each message as long as its bytes 2 and 3 say, high byte first, or a bare header when they say less than 8; and there is no other such list of messages |
| `Framing.FramesAreTheMessages` | docker/access/ryu/ryu/controller/controller.py:346-360 | every stream of messages is cut into exactly those messages, and the part of the next one is kept |
| `Framing.EveryStreamIsCarried` | docker/access/ryu/ryu/controller/controller.py:346-380 | any bytes at all are such a stream |
| `Framing.ReceivedExactly` | docker/access/ryu/ryu/controller/controller.py:331-344 | a time-out adds nothing, received bytes are added also when the connection dies meanwhile, and nothing is read after the arrival that ends the loop |
| `Framing.Dispatch` | docker/access/ryu/ryu/controller/controller.py:346-380 | the inner loop takes every complete frame |
| `SendQueue.StepKeepsPermits` | docker/access/ryu/ryu/controller/controller.py:391-432 | free permits, queued messages and callers holding a permit always add up to the capacity |
| `SendQueue.PutFindsRoom` | docker/access/ryu/ryu/controller/controller.py:421-426 | a caller with a permit finds room in the queue |
| `SendQueue.NoneStuckAfterShutdown` | docker/access/ryu/ryu/controller/controller.py:404-419 | after the shutdown no permit is lost, and while a call has not returned some call can go on |
| `SendQueue.StepKeepsOrder` | docker/access/ryu/ryu/controller/controller.py:391-419 | everything queued left in order, or is queued, or was drained |
| `SendQueue.StepKeepsOnce` | docker/access/ryu/ryu/controller/controller.py:421-432 | a call has queued its message once if it returned True, and not at all otherwise |
| `SendQueue.EveryRunConserves` | docker/access/ryu/ryu/controller/controller.py:391-432 | for every interleaving: permits are conserved, the socket gets a prefix of what was queued, and a message was queued exactly when its call returned True |
| `SendQueue.ClosingMessageEnds` | docker/access/ryu/ryu/controller/controller.py:391-404 | in every run a closing message is the last one sent and ends the loop, which otherwise ends only by a kill, a socket failure or a dead connection; what is sent has the flag it was asked with |
| `SendQueue.NothingSentAfterwards` | docker/access/ryu/ryu/controller/controller.py:391-404 | once the loop is over, or is about to find the connection dead, nothing more is sent |
| `SendQueue.Datapath.FinishSend` | docker/access/ryu/ryu/controller/controller.py:421-432 | a call after it got its permit |
| `SendQueue.Datapath.TakeNext` | docker/access/ryu/ryu/controller/controller.py:394-395 | the loop when a message is there |
| `SendQueue.Datapath.AfterSendAll` | docker/access/ryu/ryu/controller/controller.py:396-398 | the loop after a message is sent |
| `SendQueue.Datapath.EndLoop` | docker/access/ryu/ryu/controller/controller.py:406-419 | the shutdown with its drain |
| `SendQueue.EventQueueLosesNothing` | docker/access/ryu/ryu/base/app_manager.py:281-303 | until an application is stopped its event queue refuses and loses no event: what was sent is handled, being handled or queued, in that order |
| `SendQueue.StopLeavesLateEvents` | docker/access/ryu/ryu/base/app_manager.py:180-185 | after a stop exactly the events queued after the event loop ended stay unhandled, and at most as many as the queue has room for; a loop that was told to stop does not wait in vain |
| `DpSet.EveryRunKeepsKeys` | docker/access/ryu/ryu/controller/dpset.py:200-251 | `dps` and `port_state` always have the same keys, and each connection is under its own id |
| `DpSet.StaleDeadChangesNothing` | docker/access/ryu/ryu/controller/dpset.py:234-251 | a DEAD event changes anything if and only if its connection is the registered one |
| `DpSet.RegisteredIsNewest` | docker/access/ryu/ryu/controller/dpset.py:200-251 | a connection is registered if and only if it is the last to become MAIN for its id and is not DEAD |
| `DpSet.EveryRunAlternates` | docker/access/ryu/ryu/controller/dpset.py:200-251 | per id enter and leave alternate, starting with enter, and end with enter if and only if the switch is registered |
| `DpSet.ReplacedAreClosed` | docker/access/ryu/ryu/controller/dpset.py:200-232 | a connection that was replaced was told to close or is dead |
| `DpSet.RegisterTells` | docker/access/ryu/ryu/controller/dpset.py:200-232 | a new id enters with the ports it reported; a known one keeps its ports, and its old connection is closed |
| `DpSet.UnregisterTells` | docker/access/ryu/ryu/controller/dpset.py:234-251 | the registered connection leaves with the ports it has then |
| `DpSet.PortStatusTells` | docker/access/ryu/ryu/controller/dpset.py:298-323 | port events of unknown switches, and removals of unknown ports, change and tell nothing; others are told and touch no other switch |
| `DpSet.ReportedPorts` | docker/access/ryu/ryu/controller/dpset.py:218-226 | of several reported ports with one number the last counts, and there are no others |
| `DpSet.PortsOverRuns` | docker/access/ryu/ryu/controller/dpset.py:298-323 | while a switch is registered, also over reconnections, each of its ports is what the last event about it made it |
| `DpSet.Registry.Add` | docker/access/ryu/ryu/controller/dpset.py:200-232 | registration with its events |
| `DpSet.Registry.Remove` | docker/access/ryu/ryu/controller/dpset.py:234-251 | removal with its events |
| `DpSet.Registry.PortStatus` | docker/access/ryu/ryu/controller/dpset.py:298-323 | port changes, also of unknown switches and ports |
| `Waiters.OneSideDeletes` | docker/access/ryu/ryu/lib/ofctl_utils.py:245-262 | while outstanding ids are distinct, exactly one side deletes each waiter, no call fails, and none remains after its call returned |
| `Waiters.SharedXidCrashes` | docker/access/ryu/ryu/lib/ofctl_utils.py:245-262 | with an id outstanding twice one call fails with a KeyError |
| `Waiters.XidsDistinct` | docker/access/ryu/ryu/controller/controller.py:434-438 | `set_xid` gives no id twice in less than 2^32 calls |
| `Waiters.ReceivesItsParts` | docker/access/ryu/ryu/app/ofctl_rest.py:738-760 | a call receives exactly the parts with its id that arrive while it is registered, in order |
| `Waiters.ReceivesTheAnswer` | docker/access/ryu/ryu/app/ofctl_rest.py:738-760 | a call that waits or was told of the last part has exactly the parts of the answer sent since the request, in order |
| `Waiters.WakesAreBounded` | docker/access/ryu/ryu/lib/ofctl_utils.py:252-259 | a call wakes up at most once more than it received parts |
| `Waiters.GivesUpWhenSilent` | docker/access/ryu/ryu/lib/ofctl_utils.py:252-262 | a call that wakes up goes on waiting if and only if some part reached it since its last wait began |
| `Waiters.RestStatsApi.SendStatsRequest` | docker/access/ryu/ryu/lib/ofctl_utils.py:245-251 | registration of a request |
| `Waiters.RestStatsApi.StatsReplyHandler` | docker/access/ryu/ryu/app/ofctl_rest.py:738-760 | one reply |
| `Waiters.RestStatsApi.AfterWait` | docker/access/ryu/ryu/lib/ofctl_utils.py:253-262 | the caller after a wait |
| `AppLoader.TurnLowersWeight` | docker/access/ryu/ryu/base/app_manager.py:402-437 | every turn lowers a weight when dependencies are acyclic, although loaded names can be queued again |
| `AppLoader.RankExistsExactly` | docker/access/ryu/ryu/base/app_manager.py:402-437 | a rank that falls along dependencies exists if and only if no names depend on each other in a cycle |
| `AppLoader.CyclesNeverEnd` | docker/access/ryu/ryu/base/app_manager.py:402-437 | names that depend on each other in a cycle, none of them a context's module, keep the list from ever becoming empty |
| `AppLoader.TurnKeepsCovered` | docker/access/ryu/ryu/base/app_manager.py:402-437 | dependencies of what is loaded are settled or queued after every turn |
| `AppLoader.TurnKeepsOnlyNeeded` | docker/access/ryu/ryu/base/app_manager.py:402-437 | all that is loaded, queued or registered is called for by a chain of dependencies from the names asked for |
| `AppLoader.TurnKeepsOrder` | docker/access/ryu/ryu/base/app_manager.py:402-437 | the names asked for are dealt with first, in their order |
| `AppLoader.TurnLeavesModulesOut` | docker/access/ryu/ryu/base/app_manager.py:411-414 | a name that comes with a context of an application asked for before, and loaded, is passed over for good, unless it was asked for even earlier |
| `AppLoader.NoneQueuedTwice` | docker/access/ryu/ryu/base/app_manager.py:434-437 | as long as no name is asked for twice, none is ever queued twice |
| `AppLoader.LoadedIsLeast` | docker/access/ryu/ryu/base/app_manager.py:402-437 | what is loaded lies in every set that holds the names asked for and all that its members depend on |
| `AppLoader.ExactlyAsked` | docker/access/ryu/ryu/base/app_manager.py:402-437 | exactly the names asked for are loaded, when they depend on nothing else and none is the module of a context |
| `AppLoader.LoadApp` | docker/access/ryu/ryu/base/app_manager.py:416-437 | the contexts of one application and the services queued for it |
| `AppLoader.AddContexts` | docker/access/ryu/ryu/base/app_manager.py:420-427 | contexts are merged, or a conflict is found if and only if there is one |
| `AppLoader.LoadApps` | docker/access/ryu/ryu/base/app_manager.py:402-437 | ends when dependencies are acyclic; then every name asked for and every dependency is loaded, comes with a registered context, or names no application, a name asked for is loaded unless it is the module of a context of one asked for before and passed over if that one is loaded, the contexts are those of the loaded applications, and nothing is loaded but what a chain of dependencies from the names asked for leads to |
| `AppLoader.NeedsAreDependencies` | docker/access/ryu/ryu/controller/handler.py:120-136 | what an application needs: services whose events it handles, but for its own module, those its module requires, and those of its contexts that are applications |
| `OfctlString.TokenIsBalanced` | docker/access/ryu/ryu/lib/ofctl_string.py:89-121 | a token is balanced and has no comma outside parentheses |
| `OfctlString.CloseFinds` | docker/access/ryu/ryu/lib/ofctl_string.py:76-86 | the block ends at the first position where all parentheses are closed |
| `OfctlString.TokensJoin` | docker/access/ryu/ryu/lib/ofctl_string.py:89-121 | the tokens of an accepted argument, joined by commas, give it back up to one comma at its end |
| `OfctlString.TokensFound` | docker/access/ryu/ryu/lib/ofctl_string.py:89-121 | joined tokens are found again if and only if the last is not empty |
| `OfctlString.TokensFoundWithComma` | docker/access/ryu/ryu/lib/ofctl_string.py:89-121 | with a comma after the last, any tokens are found again |
| `OfctlString.AcceptedExactly` | docker/access/ryu/ryu/lib/ofctl_string.py:89-121 | exactly the joined lists of tokens, with or without a comma at the end, are accepted |
| `OfctlString.TokenizeOfpInstructionArg` | docker/access/ryu/ryu/lib/ofctl_string.py:89-121 | the loop |
| `OfctlString.ParenLevelIsNatural` | docker/access/ryu/ryu/lib/ofctl_string.py:42-50 | the assertion on the parenthesis level always holds |
| `OfctlString.ActionIsBalanced` | docker/access/ryu/ryu/lib/ofctl_string.py:42-57 | each action is a name and balanced text |
| `OfctlString.ActionsFound` | docker/access/ryu/ryu/lib/ofctl_string.py:42-71 | actions joined by commas are split into those actions again |
| `OfctlString.ActionsJoin` | docker/access/ryu/ryu/lib/ofctl_string.py:42-71 | the actions of a string that splits, joined by commas, give it back up to one comma at its end |
| `OfctlString.ParseConvertsEach` | docker/access/ryu/ryu/lib/ofctl_string.py:42-73 | a list of actions is converted one by one, `drop` alone means none, and anything else rejects the string |
| `OfctlString.TextIsToken` | docker/access/ryu/ryu/lib/ofctl_string.py:89-121 | a text without commas and parentheses is one token |
| `OfctlString.PlainIsAction` | docker/access/ryu/ryu/lib/ofctl_string.py:42-57 | a name, with plain text after it that no letter begins, is one action |
| `OfctlString.BlockIsAction` | docker/access/ryu/ryu/lib/ofctl_string.py:42-57 | a name with one pair of parentheses after it, whatever balanced text they hold, is one action |
| `OfctlString.NoNameNoAction` | docker/access/ryu/ryu/lib/ofctl_string.py:42-45 | nothing else begins an action |
| `OfctlString.CtArgsMean` | docker/access/ryu/ryu/lib/ofctl_string.py:291-318 | `commit` and `force` set their own flags in whatever order, the last `exec` gives the actions, and one bad argument rejects them all |
| `OfctlString.CtMeans` | docker/access/ryu/ryu/lib/ofctl_string.py:283-318 | a whole `ct` action of any tokens has exactly the flags and actions they name |
| `OfctlString.CtText` | docker/access/ryu/ryu/lib/ofctl_string.py:283-290 | the arguments stand between `ct(` and the last parenthesis; `ct` alone has none |
| `OfctlString.ExecTextIs` | docker/access/ryu/ryu/lib/ofctl_string.py:297-299 | what `exec(...)` holds is parsed as actions |
| `OfctlString.OthersAreSimple` | docker/access/ryu/ryu/lib/ofctl_string.py:66-71 | every other action is what its converter makes of its text |
| `OfctlString.NestingIsBounded` | docker/access/ryu/ryu/lib/ofctl_string.py:274-305 | the recursion through `ct` and `exec` ends: its depth is at most a tenth of the length |
| `OfctlString.OfpInstructionFromStr` | docker/access/ryu/ryu/lib/ofctl_string.py:42-73 | the loop |

## Left out

Weaker or conditional statements:

- RouterRuns.EveryRunForwardsAsPrescribed: one VLAN with ids up to 0xffff and no spelled-out destination of length 0; the lemmas on ids and on that destination show why. Entries of other VLANs are only known not to carry this VLAN's cookie, and matching across VLANs is not modelled.
- RouterRuns.StepExact: a handler's flow modifications reach the switch at once; a `send` that waits for room in the connection's queue (`SendQueue`) is not a pause here. The runs are those of one `VlanRouter` while it exists: for a VLAN other than 0 an emptied router is removed, with a wait, and a new one starts its ids at 1 again.
- RouterRuns.ReachableAgrees: `Abort` may end any pause in these runs; `RouterPackets.WholeRunAgrees` says when it does.
- RouterPackets.WholeRunAgrees: an ARP reply's effect on the tables and its effect on the suspended packets are two moves, and others may come between.
- RouterEvents.StepKeeps: the packet-in flows for ARP, the switch-wide normal flow and the broadcast flows of `Router.__init__` are not part of the table; ids and destinations must be admissible, as above.
- RouterExact.DeleteRouteIdExact: needs a complete report and a registered address; with none registered there is no route either.
- Router.VlanRouter.PacketInArp: the part of `_packetin_arp` that changes tables and flows; packets it sends back out are left out, the reply to suspended packets is in `Suspend`.
- Router.VlanRouter.DeleteAddressData: which networks have suspended packets is a parameter; `Suspend.SuspendPacketList.DeleteAddress` ends their threads, and `RouterPackets` puts the two together. The tables are valid when the method starts; what it does after a gateway was stranded is left out.
- Suspend.EveryRunAccountsForAll: a packet-out, an ICMP error or an ARP request leaves at once; a send that waits for room in the connection's queue is not a pause here.
- Bfd.UpMeansHeard: without authentication, echo and demand mode in the packets sent; a session in AdminDown is handled but no code enters that state.
- Bfd.BothComeUp: both peers must allow packets (a required receive interval above 0); a switch that is not connected sends nothing and is not modelled.
- Bfd.RecvBfdPkt: the parsed packet is given; parsing Ethernet, IP and UDP is left out, and so is learning the peer's addresses.
- Mrt.RecordRoundTrip: for well-formed records: registered class, fields that fit their widths, status 1, addresses of the class's family. A record without a timestamp takes the clock's and is not modelled. The view name is its encoded bytes.
- Mrt.FixRecord: the fields that `serialize` overwrites in place are computed by functions on values; the order and aliasing of these updates are not captured.
- Igmp.EveryRunAgrees: one switch that stays connected and a server port that is not changed meanwhile; packets sent out are left out.
- Igmp.IgmpQuerier.QueryExpired: one step, as is `Igmp.IgmpQuerier.ExpireOne`; a loop that sends more flow modifications than the connection's queue has room for waits in `send`, and a report that arrives during that wait is not modelled.
- SendQueue.EveryRunConserves: kills arrive only where the loop waits; a kill before the thread first runs is left out.
- SendQueue.StopLeavesLateEvents: an event loop that a killed handler ends from inside is left out.
- DpSet.RegisteredIsNewest: each connection becomes MAIN and DEAD at most once, in that order.
- Waiters.ReceivesTheAnswer: outstanding transaction ids at a switch are distinct.
- AppLoader.LoadApps: acyclic is stated by a rank, which exists exactly when there is no cycle (`AppLoader.RankExistsExactly`); module import errors and splitting names at commas are left out.
- OfctlString.ParseConvertsEach: every error is the same `None`, whether the code raises `OFPInvalidActionString` or an assertion; the converters of actions other than `ct`, and the values of `ct`'s `table`, `zone` and `alg`, are parameters.

Not modelled:

- OpenFlow 1.0 variants, REST and JSON handling, text forms of addresses, logging, ICMP packets.
- Sockets, TLS, eventlet, the event bus and its handlers.
- `IgmpSnooper`: its leave and query timers can index entries that are already gone.
- BGP path attributes, prefixes and messages and OSPF messages: abstract codecs.
- `rest_firewall.py`, `rest_qos.py`, `network.py`, `tunnels.py`, `lacplib.py`, `rest_vtep.py` and the simple switches: easy members, or dependent on libraries that are not part of this model.
