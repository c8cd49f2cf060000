/**
 The switch registry `DPSet` of `dpset.py`: which connection stands for a datapath id when switches
 reconnect before their old connection is known to be dead.
 */
module DpSet {
  import opened Wrappers

  type Dpid = nat

  datatype Port = Port(no: nat, name: nat)

  /** A connection; `uid` stands for the identity of the object, `ports` for the ports it reported. */
  datatype Conn = Conn(uid: nat, id: Dpid, ports: seq<Port>)

  datatype Event =
    | Main(c: Conn)
    | Dead(c: Conn)
    | PortAdd(c: Conn, port: Port)
    | PortDelete(c: Conn, no: nat)
    | PortModify(c: Conn, port: Port)

  /** What observers are told: `EventDP` with enter or leave, and `EventDPReconnected`. */
  datatype Note =
    | Enter(c: Conn, ports: seq<Port>)
    | Leave(c: Conn, left: map<nat, Port>)
    | Reconnected(c: Conn, kept: map<nat, Port>)
    | PortChange(e: Event)

  datatype State = State(
    dps: map<Dpid, Conn>, portState: map<Dpid, map<nat, Port>>, notes: seq<Note>, closed: seq<Conn>)

  function Init(): State {
    State(map[], map[], [], [])
  }

  function PortMap(ports: seq<Port>): map<nat, Port> {
    if ports == [] then map[]
    else
      var last := ports[|ports| - 1];
      PortMap(ports[..|ports| - 1])[last.no := last]
  }

  // ---------------------------------------------------------------- steps

  function Register(s: State, c: Conn): State {
    var known := c.id in s.dps;
    var closed := if known then s.closed + [s.dps[c.id]] else s.closed;
    var isNew := c.id !in s.portState;
    var portState := if isNew then s.portState[c.id := PortMap(c.ports)] else s.portState;
    State(s.dps[c.id := c], portState,
          s.notes + (if isNew then [Enter(c, c.ports)] else [])
                  + (if known then [Reconnected(c, portState[c.id])] else []),
          closed)
  }

  function Unregister(s: State, c: Conn): State {
    if c !in s.dps.Values then s
    else
      var left := if c.id in s.portState then s.portState[c.id] else map[];
      State(s.dps - {c.id}, s.portState - {c.id}, s.notes + [Leave(c, left)], s.closed)
  }

  /** A port change of an unknown switch, and the removal of an unknown port, raise `KeyError`. */
  function ChangePort(s: State, e: Event): State
    requires !e.Main? && !e.Dead?
  {
    if e.c.id !in s.portState || (e.PortDelete? && e.no !in s.portState[e.c.id]) then s
    else
      var ports := s.portState[e.c.id];
      var changed := if e.PortDelete? then ports - {e.no} else ports[e.port.no := e.port];
      s.(portState := s.portState[e.c.id := changed], notes := s.notes + [PortChange(e)])
  }

  function Step(s: State, e: Event): State {
    match e
    case Main(c) => Register(s, c)
    case Dead(c) => Unregister(s, c)
    case _ => ChangePort(s, e)
  }

  function After(es: seq<Event>): State {
    if es == [] then Init() else Step(After(es[..|es| - 1]), es[|es| - 1])
  }

  // ---------------------------------------------------------------- invariants

  ghost predicate KeysAgree(s: State) {
    && s.dps.Keys == s.portState.Keys
    && forall id :: id in s.dps ==> s.dps[id].id == id
  }

  lemma StepKeepsKeys(s: State, e: Event)
    requires KeysAgree(s)
    ensures KeysAgree(Step(s, e))
  {
  }

  lemma {:induction false} EveryRunKeepsKeys(es: seq<Event>)
    ensures KeysAgree(After(es))
  {
    if es != [] {
      EveryRunKeepsKeys(es[..|es| - 1]);
      StepKeepsKeys(After(es[..|es| - 1]), es[|es| - 1]);
    }
  }

  /** Only the connection that stands for the id can end it: a stale DEAD changes nothing at all. */
  lemma StaleDeadChangesNothing(s: State, c: Conn)
    requires KeysAgree(s)
    ensures c.id in s.dps && s.dps[c.id] == c <==> Unregister(s, c) != s
  {
    if c in s.dps.Values {
      var id :| id in s.dps && s.dps[id] == c;
      assert id == c.id;
      assert c.id !in Unregister(s, c).dps;
    }
  }

  // ---------------------------------------------------------------- which connection is registered

  /** Each connection becomes MAIN and DEAD at most once, and not MAIN after it is DEAD. */
  predicate OncePerConn(es: seq<Event>) {
    forall i, j :: 0 <= i < j < |es| && es[j].Main? ==> es[i] != es[j] && es[i] != Dead(es[j].c)
  }

  /** `c` is the last connection to become MAIN for its id, and it has not become DEAD. */
  ghost predicate Newest(es: seq<Event>, c: Conn) {
    exists i :: 0 <= i < |es| && es[i] == Main(c) && Undisturbed(es, i)
  }

  predicate Undisturbed(es: seq<Event>, i: nat)
    requires i < |es| && es[i].Main?
  {
    forall j :: i < j < |es| ==> es[j] != Dead(es[i].c) && !(es[j].Main? && es[j].c.id == es[i].c.id)
  }

  lemma NewestStep(es: seq<Event>, e: Event, c: Conn)
    requires !(e.Main? && e.c.id == c.id) && e != Dead(c)
    ensures Newest(es + [e], c) <==> Newest(es, c)
  {
    var more := es + [e];
    if Newest(es, c) {
      var i :| 0 <= i < |es| && es[i] == Main(c) && Undisturbed(es, i);
      assert more[i] == Main(c) && Undisturbed(more, i);
    }
    if Newest(more, c) {
      var i :| 0 <= i < |more| && more[i] == Main(c) && Undisturbed(more, i);
      assert i < |es|;
      forall j | i < j < |es|
        ensures es[j] != Dead(c) && !(es[j].Main? && es[j].c.id == c.id)
      {
        assert more[j] == es[j];
      }
      assert es[i] == Main(c) && Undisturbed(es, i);
    }
  }

  /** The newest live connection of an id is the one registered for it, in every run. */
  lemma {:induction false} RegisteredIsNewest(es: seq<Event>, c: Conn)
    requires OncePerConn(es)
    ensures c.id in After(es).dps && After(es).dps[c.id] == c <==> Newest(es, c)
  {
    if es != [] {
      var front, e := es[..|es| - 1], es[|es| - 1];
      assert es == front + [e];
      EveryRunKeepsKeys(front);
      RegisteredIsNewest(front, c);
      if e == Main(c) {
        assert Undisturbed(es, |es| - 1);
      } else if e == Dead(c) {
        StaleDeadChangesNothing(After(front), c);
        NotNewestWhenDead(es, c);
      } else if e.Main? && e.c.id == c.id {
        NotNewestWhenReplaced(es, c);
      } else {
        NewestStep(front, e, c);
        OthersKept(After(front), e, c);
      }
    }
  }

  lemma NotNewestWhenDead(es: seq<Event>, c: Conn)
    requires OncePerConn(es) && es != [] && es[|es| - 1] == Dead(c)
    ensures !Newest(es, c)
  {
  }

  lemma NotNewestWhenReplaced(es: seq<Event>, c: Conn)
    requires es != [] && es[|es| - 1].Main? && es[|es| - 1].c.id == c.id && es[|es| - 1].c != c
    ensures !Newest(es, c)
  {
  }

  lemma OthersKept(s: State, e: Event, c: Conn)
    requires KeysAgree(s) && !(e.Main? && e.c.id == c.id) && e != Dead(c)
    ensures c.id in Step(s, e).dps && Step(s, e).dps[c.id] == c <==> c.id in s.dps && s.dps[c.id] == c
  {
    if e.Dead? {
      StaleDeadChangesNothing(s, e.c);
    }
  }

  // ---------------------------------------------------------------- what observers are told

  /** The notes that a switch entered or left, for one id: True for enter. */
  function EnterLeave(notes: seq<Note>, id: Dpid): seq<bool> {
    if notes == [] then []
    else
      var n := notes[|notes| - 1];
      EnterLeave(notes[..|notes| - 1], id)
      + if (n.Enter? || n.Leave?) && n.c.id == id then [n.Enter?] else []
  }

  /** Starts with enter, alternates, and ends with enter exactly when the switch is registered. */
  predicate Alternates(bits: seq<bool>, registered: bool) {
    && (forall i :: 0 <= i < |bits| ==> bits[i] == (i % 2 == 0))
    && (registered <==> |bits| % 2 == 1)
  }

  lemma EnterLeaveAppend(notes: seq<Note>, n: Note, id: Dpid)
    ensures EnterLeave(notes + [n], id)
         == EnterLeave(notes, id) + if (n.Enter? || n.Leave?) && n.c.id == id then [n.Enter?] else []
  {
    assert (notes + [n])[..|notes|] == notes;
  }

  /** Appending the note that fits keeps the alternation. */
  lemma NoteAlternates(notes: seq<Note>, n: Note, id: Dpid, before: bool, after: bool)
    requires Alternates(EnterLeave(notes, id), before)
    requires if (n.Enter? || n.Leave?) && n.c.id == id then n.Enter? == !before && after == !before else after == before
    ensures Alternates(EnterLeave(notes + [n], id), after)
  {
    EnterLeaveAppend(notes, n, id);
  }

  lemma RegisterAlternates(s: State, c: Conn, id: Dpid)
    requires KeysAgree(s) && Alternates(EnterLeave(s.notes, id), id in s.dps)
    ensures Alternates(EnterLeave(Register(s, c).notes, id), id in Register(s, c).dps)
  {
    var note := if c.id in s.dps then Reconnected(c, s.portState[c.id]) else Enter(c, c.ports);
    assert Register(s, c).notes == s.notes + [note];
    NoteAlternates(s.notes, note, id, id in s.dps, id in Register(s, c).dps);
  }

  lemma UnregisterAlternates(s: State, c: Conn, id: Dpid)
    requires KeysAgree(s) && Alternates(EnterLeave(s.notes, id), id in s.dps)
    ensures Alternates(EnterLeave(Unregister(s, c).notes, id), id in Unregister(s, c).dps)
  {
    StaleDeadChangesNothing(s, c);
    if Unregister(s, c) != s {
      NoteAlternates(s.notes, Leave(c, s.portState[c.id]), id, id in s.dps, id in Unregister(s, c).dps);
    }
  }

  lemma StepAlternates(s: State, e: Event, id: Dpid)
    requires KeysAgree(s) && Alternates(EnterLeave(s.notes, id), id in s.dps)
    ensures Alternates(EnterLeave(Step(s, e).notes, id), id in Step(s, e).dps)
  {
    match e
    case Main(c) => RegisterAlternates(s, c, id);
    case Dead(c) => UnregisterAlternates(s, c, id);
    case _ => NoteAlternates(s.notes, PortChange(e), id, id in s.dps, id in s.dps);
  }

  /** For every interleaving of connections, enter and leave alternate for every id. */
  lemma {:induction false} EveryRunAlternates(es: seq<Event>, id: Dpid)
    ensures Alternates(EnterLeave(After(es).notes, id), id in After(es).dps)
  {
    if es != [] {
      var front := es[..|es| - 1];
      EveryRunAlternates(front, id);
      EveryRunKeepsKeys(front);
      StepAlternates(After(front), es[|es| - 1], id);
    }
  }

  /** A connection that stood for its id and does no more was told to close or is dead. */
  lemma {:induction false} ReplacedAreClosed(es: seq<Event>, c: Conn)
    requires Main(c) in es
    ensures (c.id in After(es).dps && After(es).dps[c.id] == c) || c in After(es).closed || Dead(c) in es
  {
    var front, e := es[..|es| - 1], es[|es| - 1];
    assert es == front + [e];
    EveryRunKeepsKeys(front);
    if Main(c) in front {
      ReplacedAreClosed(front, c);
      if e.Dead? {
        StaleDeadChangesNothing(After(front), e.c);
      }
    }
  }

  // ---------------------------------------------------------------- what each event tells and keeps

  /** A new id enters with the ports it reported; a known one keeps its ports, and its old connection is closed. */
  lemma RegisterTells(s: State, c: Conn)
    requires KeysAgree(s)
    ensures var t := Register(s, c);
      && t.dps == s.dps[c.id := c]
      && if c.id in s.dps
         then t.portState == s.portState && t.closed == s.closed + [s.dps[c.id]]
              && t.notes == s.notes + [Reconnected(c, s.portState[c.id])]
         else t.portState == s.portState[c.id := PortMap(c.ports)] && t.closed == s.closed
              && t.notes == s.notes + [Enter(c, c.ports)]
  {
    assert s.notes + [] == s.notes;
  }

  /** The registered connection leaves with the ports it has then; nothing is left of its id. */
  lemma UnregisterTells(s: State, c: Conn)
    requires KeysAgree(s) && c.id in s.dps && s.dps[c.id] == c
    ensures var t := Unregister(s, c);
      && t.dps == s.dps - {c.id} && t.portState == s.portState - {c.id} && t.closed == s.closed
      && t.notes == s.notes + [Leave(c, s.portState[c.id])]
  {
  }

  /**
   A port event of an unknown switch, and the removal of an unknown port, change and tell nothing; any
   other is told, and changes the ports of its switch only.
   */
  lemma PortStatusTells(s: State, e: Event)
    requires !e.Main? && !e.Dead?
    ensures var t := Step(s, e);
      if e.c.id !in s.portState || (e.PortDelete? && e.no !in s.portState[e.c.id]) then t == s
      else
        && t.notes == s.notes + [PortChange(e)] && t.dps == s.dps && t.closed == s.closed
        && t.portState.Keys == s.portState.Keys
        && forall id :: id in s.portState && id != e.c.id ==> t.portState[id] == s.portState[id]
  {
  }

  predicate LastReport(ports: seq<Port>, i: nat, no: nat) {
    i < |ports| && ports[i].no == no && forall j :: i < j < |ports| ==> ports[j].no != no
  }

  /** Of several reported ports with the same number the last one counts, and there are no others. */
  lemma {:induction false} ReportedPorts(ports: seq<Port>, i: nat, no: nat)
    ensures LastReport(ports, i, no) ==> no in PortMap(ports) && PortMap(ports)[no] == ports[i]
    ensures (forall k :: 0 <= k < |ports| ==> ports[k].no != no) ==> no !in PortMap(ports)
  {
    if ports != [] {
      var n := |ports| - 1;
      ReportedPorts(ports[..n], i, no);
      if LastReport(ports, i, no) && i < n {
        assert LastReport(ports[..n], i, no);
      }
    }
  }

  // ---------------------------------------------------------------- the ports of a switch

  /** The event changes the port with this number, of the switch with this id. */
  predicate Concerns(e: Event, id: Dpid, no: nat) {
    match e
    case PortAdd(c, port) => c.id == id && port.no == no
    case PortModify(c, port) => c.id == id && port.no == no
    case PortDelete(c, n) => c.id == id && n == no
    case _ => false
  }

  /** The port with this number after these events, if it was `before`: the last that concerns it decides. */
  ghost predicate PortIs(es: seq<Event>, id: Dpid, no: nat, before: Option<Port>, after: Option<Port>) {
    && (Untouched(es, id, no) ==> after == before)
    && forall i: nat :: LastConcern(es, i, id, no) ==> after == Left(es[i])
  }

  predicate Untouched(es: seq<Event>, id: Dpid, no: nat) {
    forall i :: 0 <= i < |es| ==> !Concerns(es[i], id, no)
  }

  predicate LastConcern(es: seq<Event>, i: nat, id: Dpid, no: nat) {
    i < |es| && Concerns(es[i], id, no) && forall j :: i < j < |es| ==> !Concerns(es[j], id, no)
  }

  /** What a port event leaves of the port. */
  function Left(e: Event): Option<Port> {
    match e
    case PortAdd(_, port) => Some(port)
    case PortModify(_, port) => Some(port)
    case _ => None
  }

  function At(table: map<nat, Port>, no: nat): Option<Port> {
    if no in table then Some(table[no]) else None
  }

  lemma StepPort(s: State, e: Event, id: Dpid, no: nat)
    requires KeysAgree(s) && id in s.portState && id in Step(s, e).portState
    ensures At(Step(s, e).portState[id], no)
         == if Concerns(e, id, no) then Left(e) else At(s.portState[id], no)
  {
    if e.Main? {
      RegisterTells(s, e.c);
    } else if e.Dead? {
      StaleDeadChangesNothing(s, e.c);
    }
  }

  /** While a switch is registered, each of its ports is what the last event about it made it. */
  lemma {:induction false} PortsOverRuns(es: seq<Event>, more: seq<Event>, id: Dpid, no: nat)
    requires id in After(es).portState
    requires forall n :: 0 <= n <= |more| ==> id in After(es + more[..n]).portState
    ensures id in After(es + more).portState
    ensures PortIs(more, id, no, At(After(es).portState[id], no), At(After(es + more).portState[id], no))
  {
    assert more[..|more|] == more;
    if more == [] {
      assert es + more == es;
    } else {
      var front, e := more[..|more| - 1], more[|more| - 1];
      assert (es + more)[..|es + more| - 1] == es + front && (es + more)[|es + more| - 1] == e;
      forall n | 0 <= n <= |front|
        ensures id in After(es + front[..n]).portState
      {
        assert front[..n] == more[..n];
      }
      PortsOverRuns(es, front, id, no);
      EveryRunKeepsKeys(es + front);
      StepPort(After(es + front), e, id, no);
      assert more == front + [e];
      PortIsStep(front, e, id, no, At(After(es).portState[id], no), At(After(es + front).portState[id], no));
    }
  }

  lemma PortIsStep(front: seq<Event>, e: Event, id: Dpid, no: nat, before: Option<Port>, was: Option<Port>)
    requires PortIs(front, id, no, before, was)
    ensures PortIs(front + [e], id, no, before, if Concerns(e, id, no) then Left(e) else was)
  {
    var es := front + [e];
    assert es[|front|] == e;
    forall i: nat | LastConcern(es, i, id, no)
      ensures (if Concerns(e, id, no) then Left(e) else was) == Left(es[i])
    {
      if i < |front| {
        assert !Concerns(es[|front|], id, no);
        EarlierConcern(front, e, i, id, no);
      }
    }
    if Untouched(es, id, no) {
      UntouchedBefore(front, e, id, no);
    }
  }

  lemma EarlierConcern(front: seq<Event>, e: Event, i: nat, id: Dpid, no: nat)
    requires i < |front| && LastConcern(front + [e], i, id, no)
    ensures LastConcern(front, i, id, no)
  {
    forall j | i < j < |front| ensures !Concerns(front[j], id, no) {
      assert (front + [e])[j] == front[j];
    }
  }

  lemma UntouchedBefore(front: seq<Event>, e: Event, id: Dpid, no: nat)
    requires Untouched(front + [e], id, no)
    ensures Untouched(front, id, no) && !Concerns(e, id, no)
  {
    assert (front + [e])[|front|] == e;
    forall i | 0 <= i < |front| ensures !Concerns(front[i], id, no) {
      assert (front + [e])[i] == front[i];
    }
  }

  // ---------------------------------------------------------------- the registry as the code keeps it

  class Registry {
    var dps: map<Dpid, Conn>
    var portState: map<Dpid, map<nat, Port>>
    var notes: seq<Note>
    var closed: seq<Conn>

    ghost function Value(): State
      reads this
    {
      State(dps, portState, notes, closed)
    }

    constructor ()
      ensures Value() == Init()
    {
      dps, portState, notes, closed := map[], map[], [], [];
    }

    /** `_register` */
    method Add(c: Conn)
      modifies this
      ensures Value() == Step(old(Value()), Main(c))
    {
      var reconnected := false;
      if c.id in dps {
        closed := closed + [dps[c.id]];
        reconnected := true;
      }
      dps := dps[c.id := c];
      if c.id !in portState {
        var ports: map<nat, Port> := map[];
        for i := 0 to |c.ports|
          invariant ports == PortMap(c.ports[..i])
        {
          ports := ports[c.ports[i].no := c.ports[i]];
          assert c.ports[..i + 1][..i] == c.ports[..i];
        }
        assert c.ports[..|c.ports|] == c.ports;
        portState := portState[c.id := ports];
        notes := notes + [Enter(c, c.ports)];
      }
      if reconnected {
        notes := notes + [Reconnected(c, portState[c.id])];
      }
    }

    /** `_unregister`; the switch's ports are deleted one by one. */
    method Remove(c: Conn)
      requires KeysAgree(Value())
      modifies this
      ensures Value() == Step(old(Value()), Dead(c))
    {
      if c !in dps.Values {
        return;
      }
      StaleDeadChangesNothing(Value(), c);
      var left: map<nat, Port> := portState[c.id];
      DeletePorts(c.id);
      notes := notes + [Leave(c, left)];
      dps := dps - {c.id};
      portState := portState - {c.id};
    }

    /** `port_status_handler` */
    method PortStatus(e: Event)
      requires !e.Main? && !e.Dead?
      modifies this
      ensures Value() == Step(old(Value()), e)
    {
      if e.c.id !in portState {
        return;
      }
      var ports: map<nat, Port> := portState[e.c.id];
      match e {
        case PortDelete(_, no) =>
          if no !in ports {
            return;
          }
          ports := ports - {no};
        case PortAdd(_, port) => ports := ports[port.no := port];
        case PortModify(_, port) => ports := ports[port.no := port];
      }
      portState := portState[e.c.id := ports];
      notes := notes + [PortChange(e)];
    }

    method DeletePorts(id: Dpid)
      requires id in portState
      modifies this`portState
      ensures portState == old(portState)[id := map[]]
    {
      var ports: map<nat, Port> := portState[id];
      while ports != map[]
        invariant portState == old(portState)[id := ports]
        decreases |ports.Keys|
      {
        var no :| no in ports;
        ghost var was := ports.Keys;
        ports := ports - {no};
        assert ports.Keys == was - {no};
        portState := portState[id := ports];
      }
    }
  }
}
