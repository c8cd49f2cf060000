/**
 The IGMP querier of `igmplib.py`: a table of multicast members, kept by reports, leaves and the
 periodic query, and the flow entries that it installs for them.
 */
module Igmp {

  type Port = nat

  type Group = nat

  /** The ports of a group's members; the value says whether the port reported since the last query. */
  type Status = map<Port, bool>

  datatype Action = ToPorts(ports: seq<Port>) | ToController

  /** The switch's entries by ingress port and destination group. */
  type Flows = map<(Port, Group), Action>

  datatype Querier = Querier(mcast: map<Group, Status>, flows: Flows)

  datatype Event = Report(group: Group, port: Port) | Leave(group: Group, port: Port) | Reset | Expire

  // ---------------------------------------------------------------- the membership table

  function StatusOf(m: map<Group, Status>, g: Group): Status {
    if g in m then m[g] else map[]
  }

  function Live(status: Status): set<Port> {
    set p | p in status && status[p]
  }

  function Silent(status: Status): set<Port> {
    set p | p in status && !status[p]
  }

  function Unheard(status: Status): Status {
    map p | p in status :: false
  }

  function Survivors(status: Status): Status {
    map p | p in status && status[p] :: true
  }

  /** The table after an event. */
  function Members(m: map<Group, Status>, e: Event): map<Group, Status> {
    match e
    case Report(g, p) => m[g := StatusOf(m, g)[p := true]]
    case Leave(g, p) => m[g := StatusOf(m, g) - {p}]
    case Reset => map g | g in m :: Unheard(m[g])
    case Expire => map g | g in m && Live(m[g]) != {} :: Survivors(m[g])
  }

  // ---------------------------------------------------------------- flow entries

  /** The ports in some order, each once. */
  ghost predicate Lists(ports: seq<Port>, members: set<Port>) {
    && (forall p :: p in ports <==> p in members)
    && (forall i, j :: 0 <= i < j < |ports| ==> ports[i] != ports[j])
  }

  predicate SameEntry(a: Flows, b: Flows, key: (Port, Group)) {
    (key in a <==> key in b) && (key in a ==> a[key] == b[key])
  }

  /** Sets the entry from the server for the members listed, or removes it when there are none. */
  function ServeMembers(flows: Flows, server: Port, g: Group, ports: seq<Port>): Flows {
    if ports == [] then flows - {(server, g)} else flows[(server, g) := ToPorts(ports)]
  }

  function WithoutPorts(flows: Flows, g: Group, ports: set<Port>): Flows {
    map k: (Port, Group) | k in flows && !(k.1 == g && k.0 in ports) :: flows[k]
  }

  /** One group's entries after the query timed out; `ports` lists the ports that reported. */
  function ExpireGroup(flows: Flows, server: Port, g: Group, status: Status, ports: seq<Port>): Flows {
    var served := if ports != [] && Silent(status) == {} then flows else ServeMembers(flows, server, g, ports);
    WithoutPorts(served, g, Silent(status))
  }

  ghost predicate GroupExpired(before: Flows, after: Flows, server: Port, g: Group, status: Status) {
    exists ports ::
      && Lists(ports, Live(status))
      && forall p :: SameEntry(ExpireGroup(before, server, g, status, ports), after, (p, g))
  }

  /** One step: the order in which Python walks a dictionary is left open. */
  ghost predicate Step(s: Querier, server: Port, e: Event, t: Querier) {
    && t.mcast == Members(s.mcast, e)
    && match e
       case Report(g, p) =>
         if p in StatusOf(s.mcast, g) then t.flows == s.flows
         else (exists ports ::
           && Lists(ports, t.mcast[g].Keys)
           && t.flows == s.flows[(server, g) := ToPorts(ports)][(p, g) := ToController])
       case Leave(g, p) =>
         if p !in StatusOf(s.mcast, g) then t.flows == s.flows
         else (exists ports ::
           && Lists(ports, t.mcast[g].Keys)
           && t.flows == ServeMembers(s.flows - {(p, g)}, server, g, ports))
       case Reset => t.flows == s.flows
       case Expire =>
         && (forall g :: g in s.mcast ==> GroupExpired(s.flows, t.flows, server, g, s.mcast[g]))
         && (forall k: (Port, Group) :: k.1 !in s.mcast ==> SameEntry(s.flows, t.flows, k))
  }

  // ---------------------------------------------------------------- agreement

  /** The entries of one group are what its members call for. */
  ghost predicate GroupAgrees(flows: Flows, server: Port, g: Group, status: Status) {
    && server !in status
    && (forall p :: p != server ==> ((p, g) in flows <==> p in status))
    && (forall p :: p in status ==> (p, g) in flows && flows[(p, g)] == ToController)
    && ((server, g) in flows <==> status != map[])
    && ((server, g) in flows ==>
          flows[(server, g)].ToPorts? && Lists(flows[(server, g)].ports, status.Keys))
  }

  ghost predicate Agrees(s: Querier, server: Port) {
    forall g :: GroupAgrees(s.flows, server, g, StatusOf(s.mcast, g))
  }

  lemma GroupFramed(a: Flows, b: Flows, server: Port, g: Group, status: Status)
    requires GroupAgrees(a, server, g, status) && forall p :: SameEntry(a, b, (p, g))
    ensures GroupAgrees(b, server, g, status)
  {
    forall p | p != server
      ensures (p, g) in b <==> p in status
    {
      assert SameEntry(a, b, (p, g));
    }
    forall p | p in status
      ensures (p, g) in b && b[(p, g)] == ToController
    {
      assert SameEntry(a, b, (p, g));
    }
    assert SameEntry(a, b, (server, g));
  }

  lemma ReportAgrees(s: Querier, server: Port, g: Group, p: Port, t: Querier)
    requires Agrees(s, server) && Step(s, server, Report(g, p), t) && p != server
    ensures Agrees(t, server)
  {
    forall h
      ensures GroupAgrees(t.flows, server, h, StatusOf(t.mcast, h))
    {
      assert GroupAgrees(s.flows, server, h, StatusOf(s.mcast, h));
      if h != g {
        assert forall q :: SameEntry(s.flows, t.flows, (q, h));
        GroupFramed(s.flows, t.flows, server, h, StatusOf(s.mcast, h));
      } else if p in StatusOf(s.mcast, g) {
        assert t.mcast[g].Keys == s.mcast[g].Keys;
      }
    }
  }

  lemma LeaveAgrees(s: Querier, server: Port, g: Group, p: Port, t: Querier)
    requires Agrees(s, server) && Step(s, server, Leave(g, p), t)
    ensures Agrees(t, server)
  {
    forall h
      ensures GroupAgrees(t.flows, server, h, StatusOf(t.mcast, h))
    {
      assert GroupAgrees(s.flows, server, h, StatusOf(s.mcast, h));
      if h != g {
        assert forall q :: SameEntry(s.flows, t.flows, (q, h));
        GroupFramed(s.flows, t.flows, server, h, StatusOf(s.mcast, h));
      } else if p !in StatusOf(s.mcast, g) {
        assert t.mcast[g] == StatusOf(s.mcast, g);
      } else {
        var ports :| Lists(ports, t.mcast[g].Keys)
          && t.flows == ServeMembers(s.flows - {(p, g)}, server, g, ports);
        ListsNone(ports, t.mcast[g]);
      }
    }
  }

  lemma ListsNone(ports: seq<Port>, status: Status)
    requires Lists(ports, status.Keys)
    ensures ports == [] <==> status == map[]
  {
    SomeListed(ports, status.Keys);
    assert status.Keys == {} <==> status == map[];
  }

  lemma ResetAgrees(s: Querier, server: Port, t: Querier)
    requires Agrees(s, server) && Step(s, server, Reset, t)
    ensures Agrees(t, server)
  {
    forall h
      ensures GroupAgrees(t.flows, server, h, StatusOf(t.mcast, h))
    {
      assert GroupAgrees(s.flows, server, h, StatusOf(s.mcast, h));
      assert StatusOf(t.mcast, h).Keys == StatusOf(s.mcast, h).Keys;
    }
  }

  lemma ExpireGroupAgrees(flows: Flows, server: Port, g: Group, status: Status, ports: seq<Port>)
    requires GroupAgrees(flows, server, g, status) && Lists(ports, Live(status))
    ensures GroupAgrees(ExpireGroup(flows, server, g, status, ports), server, g, Survivors(status))
  {
    assert Survivors(status).Keys == Live(status);
    ListsNone(ports, Survivors(status));
    if Silent(status) == {} {
      assert forall p :: p in status ==> p in Live(status) || p in Silent(status);
      assert status.Keys == Live(status);
    }
  }

  lemma ExpireAgrees(s: Querier, server: Port, t: Querier)
    requires Agrees(s, server) && Step(s, server, Expire, t)
    ensures Agrees(t, server)
  {
    forall h
      ensures GroupAgrees(t.flows, server, h, StatusOf(t.mcast, h))
    {
      var status := StatusOf(s.mcast, h);
      assert GroupAgrees(s.flows, server, h, status);
      assert StatusOf(t.mcast, h) == Survivors(status);
      if h in s.mcast {
        assert GroupExpired(s.flows, t.flows, server, h, s.mcast[h]);
        var ports :| Lists(ports, Live(status))
          && forall p :: SameEntry(ExpireGroup(s.flows, server, h, status, ports), t.flows, (p, h));
        ExpireGroupAgrees(s.flows, server, h, status, ports);
        GroupFramed(ExpireGroup(s.flows, server, h, status, ports), t.flows, server, h, Survivors(status));
      } else {
        assert forall p :: SameEntry(s.flows, t.flows, (p, h));
        GroupFramed(s.flows, t.flows, server, h, status);
      }
    }
  }

  /**
   A step keeps the agreement exactly when it is not a report from the server's own port: that
   report's entry for the controller takes the place of the entry that serves the group.
   */
  lemma StepKeepsAgreement(s: Querier, server: Port, e: Event, t: Querier)
    requires Agrees(s, server) && Step(s, server, e, t)
    ensures Agrees(t, server) <==> !(e.Report? && e.port == server)
  {
    match e
    case Report(g, p) =>
      if p != server {
        ReportAgrees(s, server, g, p, t);
      } else {
        assert server in StatusOf(t.mcast, g);
        assert !GroupAgrees(t.flows, server, g, StatusOf(t.mcast, g));
      }
    case Leave(g, p) => LeaveAgrees(s, server, g, p, t);
    case Reset => ResetAgrees(s, server, t);
    case Expire => ExpireAgrees(s, server, t);
  }

  // ---------------------------------------------------------------- runs

  ghost predicate IsRun(states: seq<Querier>, server: Port, es: seq<Event>) {
    && |states| == |es| + 1
    && forall i :: 0 <= i < |es| ==> Step(states[i], server, es[i], states[i + 1])
  }

  predicate FromServer(server: Port, e: Event) {
    e.Report? && e.port == server
  }

  lemma {:induction false} RunAgrees(states: seq<Querier>, server: Port, es: seq<Event>, n: nat)
    requires IsRun(states, server, es) && states[0] == Querier(map[], map[]) && n <= |es|
    requires forall i :: 0 <= i < n ==> !FromServer(server, es[i])
    ensures Agrees(states[n], server)
  {
    if n == 0 {
      assert forall g :: StatusOf(states[0].mcast, g) == map[];
    } else {
      RunAgrees(states, server, es, n - 1);
      assert Step(states[n - 1], server, es[n - 1], states[n - 1 + 1]);
      StepKeepsAgreement(states[n - 1], server, es[n - 1], states[n]);
    }
  }

  /**
   Started empty, the querier agrees with the switch in every state of a run exactly when no report
   of the run comes from the server's port.
   */
  lemma EveryRunAgrees(states: seq<Querier>, server: Port, es: seq<Event>)
    requires IsRun(states, server, es) && states[0] == Querier(map[], map[])
    ensures (forall n :: 0 <= n < |states| ==> Agrees(states[n], server))
       <==> (forall i :: 0 <= i < |es| ==> !FromServer(server, es[i]))
  {
    if forall i :: 0 <= i < |es| ==> !FromServer(server, es[i]) {
      forall n | 0 <= n < |states|
        ensures Agrees(states[n], server)
      {
        RunAgrees(states, server, es, n);
      }
    } else {
      var i :| 0 <= i < |es| && FromServer(server, es[i]);
      if Agrees(states[i], server) {
        assert Step(states[i], server, es[i], states[i + 1]);
        StepKeepsAgreement(states[i], server, es[i], states[i + 1]);
        assert !Agrees(states[i + 1], server);
      }
    }
  }

  function MembersAfter(m: map<Group, Status>, es: seq<Event>): map<Group, Status> {
    if es == [] then m else Members(MembersAfter(m, es[..|es| - 1]), es[|es| - 1])
  }

  /** The port's last word on the group was a report. */
  predicate Heard(es: seq<Event>, g: Group, p: Port) {
    if es == [] then false
    else
      var last := es[|es| - 1];
      if last == Report(g, p) then true
      else if last == Leave(g, p) then false
      else Heard(es[..|es| - 1], g, p)
  }

  predicate Between(es: seq<Event>) {
    forall e :: e in es ==> e.Report? || e.Leave?
  }

  lemma {:induction false} ReportedSince(m: map<Group, Status>, es: seq<Event>, g: Group, p: Port)
    requires Between(es)
    ensures var status := StatusOf(MembersAfter(Members(m, Reset), es), g);
      p in Live(status) <==> Heard(es, g, p)
  {
    if es != [] {
      var front, last := es[..|es| - 1], es[|es| - 1];
      assert last in es && forall e :: e in front ==> e in es;
      ReportedSince(m, front, g, p);
    }
  }

  /**
   When the response time is over, the members are exactly the ports whose last word since the
   query was a report; no group stays without members.
   */
  lemma ExpiryKeepsExactlyTheHeard(m: map<Group, Status>, es: seq<Event>, g: Group, p: Port)
    requires Between(es)
    ensures var after := Members(MembersAfter(Members(m, Reset), es), Expire);
      && (p in StatusOf(after, g) <==> Heard(es, g, p))
      && (g in after ==> after[g] != map[])
  {
    var before := MembersAfter(Members(m, Reset), es);
    ReportedSince(m, es, g, p);
    if g in before && Live(before[g]) != {} {
      var q :| q in Live(before[g]);
      assert q in Survivors(before[g]);
    }
  }

  /** The port's last word on the group, a report, was this event. */
  predicate LastWord(es: seq<Event>, i: nat, g: Group, p: Port) {
    && i < |es| && es[i] == Report(g, p)
    && forall j :: i < j < |es| ==> es[j] != Report(g, p) && es[j] != Leave(g, p)
  }

  predicate AskedAfter(es: seq<Event>, i: nat) {
    exists j :: i < j < |es| && es[j] == Reset
  }

  /** A whole query, from its start to its end, came after the event. */
  predicate TimedOut(es: seq<Event>, i: nat) {
    exists j, k :: i < j < k < |es| && es[j] == Reset && es[k] == Expire
  }

  /** Where a port stands: a member that has replied since the last query, one that has not, or no member. */
  datatype Standing = Replied | Unanswered | NoMember

  function StandingOf(m: map<Group, Status>, g: Group, p: Port): Standing {
    var status := StatusOf(m, g);
    if p !in status then NoMember else if status[p] then Replied else Unanswered
  }

  ghost predicate StandsAt(es: seq<Event>, g: Group, p: Port, at: Standing) {
    if exists i: nat :: LastWord(es, i, g, p) then exists i: nat :: LastWord(es, i, g, p) && StandsSince(es, i, at)
    else at == NoMember
  }

  predicate StandsSince(es: seq<Event>, i: nat, at: Standing) {
    at == if TimedOut(es, i) then NoMember else if AskedAfter(es, i) then Unanswered else Replied
  }

  /** One event moves one port like this. */
  lemma StandingStep(m: map<Group, Status>, e: Event, g: Group, p: Port)
    ensures var was, now := StandingOf(m, g, p), StandingOf(Members(m, e), g, p);
      now == if e == Report(g, p) then Replied
             else if e == Leave(g, p) then NoMember
             else if e == Reset && was == Replied then Unanswered
             else if e == Expire && was == Unanswered then NoMember
             else was
  {
    if e.Expire? && g in m && p in m[g] && m[g][p] {
      assert p in Live(m[g]);
    }
  }

  lemma AfterOneMore(front: seq<Event>, e: Event, i: nat)
    requires i < |front|
    ensures AskedAfter(front + [e], i) <==> AskedAfter(front, i) || e == Reset
    ensures TimedOut(front + [e], i) <==> TimedOut(front, i) || (e == Expire && AskedAfter(front, i))
  {
    var es := front + [e];
    assert es[|front|] == e;
    if AskedAfter(front, i) {
      var j :| i < j < |front| && front[j] == Reset;
      assert es[j] == Reset;
    }
    if TimedOut(front, i) {
      var j, k :| i < j < k < |front| && front[j] == Reset && front[k] == Expire;
      assert es[j] == Reset && es[k] == Expire;
    }
  }

  lemma LastWordStep(front: seq<Event>, e: Event, i: nat, g: Group, p: Port)
    requires e != Report(g, p) && e != Leave(g, p)
    ensures LastWord(front + [e], i, g, p) <==> LastWord(front, i, g, p)
  {
    var es := front + [e];
    if LastWord(es, i, g, p) {
      forall j | i < j < |front| ensures front[j] != Report(g, p) && front[j] != Leave(g, p) {
        assert es[j] == front[j];
      }
    }
  }

  /**
   Membership in every run: a port is a member of a group if and only if its last word on the group was
   a report and no whole query has passed since; it counts as having replied if no query began since.
   */
  lemma {:induction false} MembersExactly(es: seq<Event>, g: Group, p: Port)
    ensures StandsAt(es, g, p, StandingOf(MembersAfter(map[], es), g, p))
  {
    if es != [] {
      var front, e := es[..|es| - 1], es[|es| - 1];
      assert es == front + [e];
      MembersExactly(front, g, p);
      StandingStep(MembersAfter(map[], front), e, g, p);
      if e == Report(g, p) {
        assert LastWord(es, |front|, g, p) && StandsSince(es, |front|, Replied);
      } else if e == Leave(g, p) {
        assert forall i: nat :: !LastWord(es, i, g, p);
      } else {
        StandsStep(front, e, g, p, StandingOf(MembersAfter(map[], front), g, p));
      }
    }
  }

  lemma StandsStep(front: seq<Event>, e: Event, g: Group, p: Port, was: Standing)
    requires StandsAt(front, g, p, was) && e != Report(g, p) && e != Leave(g, p)
    ensures StandsAt(front + [e], g, p, if e == Reset && was == Replied then Unanswered
                                        else if e == Expire && was == Unanswered then NoMember else was)
  {
    forall i: nat ensures LastWord(front + [e], i, g, p) <==> LastWord(front, i, g, p) {
      LastWordStep(front, e, i, g, p);
    }
    if i: nat :| LastWord(front, i, g, p) && StandsSince(front, i, was) {
      AfterOneMore(front, e, i);
      assert LastWord(front + [e], i, g, p);
      assert TimedOut(front, i) ==> AskedAfter(front, i);
    }
  }

  // ---------------------------------------------------------------- the querier as the code keeps it

  class IgmpQuerier {
    const serverPort: Port
    var mcast: map<Group, Status>
    // The switch: what the flow modifications that were sent have made of its table.
    var flows: Flows

    ghost function Value(): Querier
      reads this
    {
      Querier(mcast, flows)
    }

    constructor (server: Port)
      ensures serverPort == server && Value() == Querier(map[], map[])
    {
      serverPort := server;
      mcast, flows := map[], map[];
    }

    method SetFlowEntry(action: Action, inPort: Port, g: Group)
      modifies this`flows
      ensures flows == old(flows)[(inPort, g) := action]
    {
      flows := flows[(inPort, g) := action];
    }

    method DelFlowEntry(inPort: Port, g: Group)
      modifies this`flows
      ensures flows == old(flows) - {(inPort, g)}
    {
      flows := flows - {(inPort, g)};
    }

    /** The actions for a set of ports, in the order in which they come up. */
    method Outputs(ports: set<Port>) returns (actions: seq<Port>)
      ensures Lists(actions, ports)
    {
      actions := [];
      var todo: set<nat> := ports;
      while todo != {}
        invariant todo <= ports
        invariant Lists(actions, ports - todo)
        decreases |todo|
      {
        var port: Port :| port in todo;
        actions := actions + [port];
        todo := todo - {port};
      }
      assert ports - todo == ports;
    }

    method DoReport(g: Group, inPort: Port)
      modifies this
      ensures Step(old(Value()), serverPort, Report(g, inPort), Value())
    {
      ghost var m := mcast;
      var update := false;
      if g !in mcast {
        mcast := mcast[g := map[]];
      }
      var status: Status := mcast[g];
      if inPort !in status {
        update := true;
      }
      status := status[inPort := true];
      mcast := mcast[g := status];
      assert mcast == Members(m, Report(g, inPort));
      if update {
        var actions := Outputs(mcast[g].Keys);
        SetFlowEntry(ToPorts(actions), serverPort, g);
        SetFlowEntry(ToController, inPort, g);
      }
    }

    method DoLeave(g: Group, inPort: Port)
      modifies this
      ensures Step(old(Value()), serverPort, Leave(g, inPort), Value())
    {
      ghost var m := mcast;
      if g !in mcast {
        mcast := mcast[g := map[]];
      }
      if inPort in mcast[g] {
        DelFlowEntry(inPort, g);
        mcast := mcast[g := mcast[g] - {inPort}];
        assert mcast == Members(m, Leave(g, inPort));
        var actions := Outputs(mcast[g].Keys);
        if |actions| > 0 {
          SetFlowEntry(ToPorts(actions), serverPort, g);
        } else {
          DelFlowEntry(serverPort, g);
        }
      } else {
        assert mcast[g] - {inPort} == mcast[g];
        assert mcast == Members(m, Leave(g, inPort));
      }
    }

    /** The start of a turn of `_send_query`: no port has replied yet. */
    method ResetReplies()
      modifies this`mcast
      ensures Step(old(Value()), serverPort, Reset, Value())
    {
      ghost var m := mcast;
      var todo: set<nat> := mcast.Keys;
      while todo != {}
        invariant todo <= m.Keys && mcast.Keys == m.Keys
        invariant forall g :: g in m ==> mcast[g] == if g in todo then m[g] else Unheard(m[g])
        decreases |todo|
      {
        var group: Group :| group in todo;
        var status: Status := mcast[group];
        var ports: set<Port> := status.Keys;
        while ports != {}
          invariant ports <= m[group].Keys && status.Keys == m[group].Keys
          invariant forall p :: p in status ==> status[p] == if p in ports then m[group][p] else false
          decreases |ports|
        {
          var port: Port :| port in ports;
          status := status[port := false];
          ports := ports - {port};
        }
        assert status == Unheard(m[group]);
        mcast := mcast[group := status];
        todo := todo - {group};
      }
    }

    /** The ports of a group that did not reply, and those that did. */
    method SplitPorts(status: Status) returns (delPorts: set<Port>, live: set<Port>)
      ensures delPorts == Silent(status) && live == Live(status)
    {
      delPorts, live := {}, {};
      var ports: set<Port> := status.Keys;
      while ports != {}
        invariant ports <= status.Keys
        invariant delPorts == Silent(status) - ports && live == Live(status) - ports
        decreases |ports|
      {
        var port: Port :| port in ports;
        if !status[port] {
          delPorts := delPorts + {port};
        } else {
          live := live + {port};
        }
        ports := ports - {port};
      }
    }

    /** Removes the entries of the ports that did not reply. */
    method DelPortEntries(group: Group, delPorts: set<Port>)
      modifies this`flows
      ensures flows == WithoutPorts(old(flows), group, delPorts)
    {
      var todo: set<Port> := delPorts;
      while todo != {}
        invariant todo <= delPorts
        invariant flows == WithoutPorts(old(flows), group, delPorts - todo)
        decreases |todo|
      {
        var port: Port :| port in todo;
        DelFlowEntry(port, group);
        todo := todo - {port};
      }
      assert delPorts - todo == delPorts;
    }

    /** One group of the loop that follows the response time. */
    method ExpireOne(group: Group, status: Status) returns (left: Status, gone: bool)
      modifies this`flows
      ensures left == Survivors(status) && (gone <==> Live(status) == {})
      ensures GroupExpired(old(flows), flows, serverPort, group, status)
      ensures forall k: (Port, Group) :: k.1 != group ==> SameEntry(old(flows), flows, k)
    {
      var delPorts, live := SplitPorts(status);
      var actions := Outputs(live);
      SomeListed(actions, live);
      if |actions| > 0 && delPorts != {} {
        SetFlowEntry(ToPorts(actions), serverPort, group);
      }
      gone := false;
      if |actions| == 0 {
        DelFlowEntry(serverPort, group);
        gone := true;
      }
      if delPorts != {} {
        DelPortEntries(group, delPorts);
      } else {
        assert flows == WithoutPorts(flows, group, delPorts);
      }
      left := status - delPorts;
      ExpireGroupFrame(old(flows), serverPort, group, status, actions);
    }

    /** The rest of the turn: silent ports and groups without members go. */
    method QueryExpired()
      modifies this
      ensures Step(old(Value()), serverPort, Expire, Value())
    {
      ghost var m := mcast;
      var delGroups: set<Group> := {};
      var todo: set<Group> := mcast.Keys;
      NothingExpiredYet(flows, serverPort, m);
      while todo != {}
        invariant todo <= m.Keys && mcast.Keys == m.Keys
        invariant MembersExpired(m, mcast, delGroups, todo)
        invariant GroupsExpired(old(flows), flows, serverPort, m, todo)
        decreases |todo|
      {
        var group: Group :| group in todo;
        ghost var before := flows;
        assert mcast[group] == m[group];
        var left, gone := ExpireOne(group, mcast[group]);
        OthersStayExpired(old(flows), before, flows, serverPort, m, todo, group);
        MembersStayExpired(m, mcast, delGroups, todo, group, left, gone);
        mcast := mcast[group := left];
        if gone {
          delGroups := delGroups + {group};
        }
        todo := todo - {group};
      }
      AllExpired(old(flows), flows, serverPort, m, mcast, delGroups);
      mcast := mcast - delGroups;
    }
  }

  /** The loop over the groups has worked on all but `todo`. */
  ghost predicate MembersExpired(m: map<Group, Status>, now: map<Group, Status>, gone: set<Group>, todo: set<Group>) {
    && now.Keys == m.Keys
    && (forall g :: g in m ==> now[g] == if g in todo then m[g] else Survivors(m[g]))
    && (forall g :: g in gone <==> g in m.Keys - todo && Live(m[g]) == {})
  }

  ghost predicate GroupsExpired(first: Flows, now: Flows, server: Port, m: map<Group, Status>, todo: set<Group>) {
    && (forall g :: g in m.Keys - todo ==> GroupExpired(first, now, server, g, m[g]))
    && (forall k: (Port, Group) :: k.1 !in m.Keys - todo ==> SameEntry(first, now, k))
  }

  lemma NothingExpiredYet(flows: Flows, server: Port, m: map<Group, Status>)
    ensures MembersExpired(m, m, {}, m.Keys)
    ensures GroupsExpired(flows, flows, server, m, m.Keys)
  {
  }

  lemma MembersStayExpired(m: map<Group, Status>, now: map<Group, Status>, gone: set<Group>,
      todo: set<Group>, group: Group, left: Status, isGone: bool)
    requires MembersExpired(m, now, gone, todo) && group in todo && todo <= m.Keys
    requires left == Survivors(m[group]) && (isGone <==> Live(m[group]) == {})
    ensures now[group] == m[group]
    ensures MembersExpired(m, now[group := left], if isGone then gone + {group} else gone, todo - {group})
  {
  }

  lemma AllExpired(first: Flows, after: Flows, server: Port, m: map<Group, Status>,
      now: map<Group, Status>, gone: set<Group>)
    requires MembersExpired(m, now, gone, {}) && GroupsExpired(first, after, server, m, {})
    ensures Step(Querier(m, first), server, Expire, Querier(now - gone, after))
  {
    assert now - gone == Members(m, Expire);
  }

  lemma ExpireGroupFrame(flows: Flows, server: Port, g: Group, status: Status, ports: seq<Port>)
    requires Lists(ports, Live(status))
    ensures GroupExpired(flows, ExpireGroup(flows, server, g, status, ports), server, g, status)
    ensures forall k: (Port, Group) | k.1 != g ::
      SameEntry(flows, ExpireGroup(flows, server, g, status, ports), k)
  {
    var after := ExpireGroup(flows, server, g, status, ports);
    assert forall p :: SameEntry(ExpireGroup(flows, server, g, status, ports), after, (p, g));
  }

  lemma SomeListed(ports: seq<Port>, members: set<Port>)
    requires Lists(ports, members)
    ensures |ports| == 0 <==> members == {}
  {
    if |ports| > 0 {
      assert ports[0] in members;
    }
    if members != {} {
      var p :| p in members;
      assert p in ports;
    }
  }

  /** Working on one group leaves what was done for the others, and starts from the old entries. */
  lemma OthersStayExpired(first: Flows, before: Flows, after: Flows, server: Port,
      m: map<Group, Status>, todo: set<Group>, group: Group)
    requires group in todo && todo <= m.Keys
    requires GroupsExpired(first, before, server, m, todo)
    requires GroupExpired(before, after, server, group, m[group])
    requires forall k: (Port, Group) :: k.1 != group ==> SameEntry(before, after, k)
    ensures GroupsExpired(first, after, server, m, todo - {group})
  {
    forall g | g in m.Keys - (todo - {group})
      ensures GroupExpired(first, after, server, g, m[g])
    {
      if g == group {
        ExpiredFrom(first, before, after, server, g, m[g]);
      } else {
        ExpiredInto(first, before, after, server, g, m[g]);
      }
    }
    forall k: (Port, Group) | k.1 !in m.Keys - (todo - {group})
      ensures SameEntry(first, after, k)
    {
      assert SameEntry(first, before, k) && SameEntry(before, after, k);
    }
  }

  lemma ExpiredFrom(first: Flows, before: Flows, after: Flows, server: Port, g: Group, status: Status)
    requires GroupExpired(before, after, server, g, status)
    requires forall k: (Port, Group) :: k.1 == g ==> SameEntry(first, before, k)
    ensures GroupExpired(first, after, server, g, status)
  {
    var ports :| Lists(ports, Live(status))
      && forall p :: SameEntry(ExpireGroup(before, server, g, status, ports), after, (p, g));
    forall p
      ensures SameEntry(ExpireGroup(first, server, g, status, ports), after, (p, g))
    {
      assert SameEntry(first, before, (p, g));
      assert SameEntry(ExpireGroup(before, server, g, status, ports), after, (p, g));
    }
  }

  lemma ExpiredInto(first: Flows, before: Flows, after: Flows, server: Port, g: Group, status: Status)
    requires GroupExpired(first, before, server, g, status)
    requires forall k: (Port, Group) :: k.1 == g ==> SameEntry(before, after, k)
    ensures GroupExpired(first, after, server, g, status)
  {
    var ports :| Lists(ports, Live(status))
      && forall p :: SameEntry(ExpireGroup(first, server, g, status, ports), before, (p, g));
    forall p
      ensures SameEntry(ExpireGroup(first, server, g, status, ports), after, (p, g))
    {
      assert SameEntry(before, after, (p, g));
      assert SameEntry(ExpireGroup(first, server, g, status, ports), before, (p, g));
    }
  }
}
