/**
 Packets that wait for an ARP reply: `SuspendPacketList` of `rest_router.py`, the handlers that
 fill and empty it, and what becomes of every packet it ever held.
 */
module Suspend {
  import opened Wrappers
  import opened Cidr
  import opened RouterTables
  import R = Router

  const MAX_SUSPENDPACKETS := 50

  /**
   A suspended packet; `id` stands for the identity of the object, and `asked` is the address the ARP
   request for it asked about.
   */
  datatype Packet = Packet(id: nat, inPort: nat, dst: Ip, asked: Ip)

  datatype Outcome = Forwarded | HostUnreachable | AddressDeleted

  datatype Resolution = Resolution(pkt: Packet, outcome: Outcome)

  /** Which packets of the list are meant. */
  datatype Selection = ToHost(ip: Ip) | InNet(net: Prefix) | Is(id: nat)

  predicate Selects(sel: Selection, p: Packet) {
    match sel
    case ToHost(ip) => p.dst == ip
    case InNet(net) => Covers(net, p.dst)
    case Is(id) => p.id == id
  }

  // ---------------------------------------------------------------- lists

  /** The selected packets (`inside`), or the others, in their order. */
  function Keep(pkts: seq<Packet>, sel: Selection, inside: bool): seq<Packet> {
    if pkts == [] then []
    else
      var p := pkts[|pkts| - 1];
      Keep(pkts[..|pkts| - 1], sel, inside) + if Selects(sel, p) == inside then [p] else []
  }

  lemma {:induction false} KeepMember(pkts: seq<Packet>, sel: Selection, inside: bool, p: Packet)
    ensures p in Keep(pkts, sel, inside) <==> p in pkts && Selects(sel, p) == inside
  {
    if pkts != [] {
      KeepMember(pkts[..|pkts| - 1], sel, inside, p);
      assert pkts == pkts[..|pkts| - 1] + [pkts[|pkts| - 1]];
    }
  }

  function IdList(pkts: seq<Packet>): (ids: seq<nat>)
    ensures |ids| == |pkts|
    ensures forall i :: 0 <= i < |pkts| ==> ids[i] == pkts[i].id
  {
    seq(|pkts|, i requires 0 <= i < |pkts| => pkts[i].id)
  }

  function Ids(pkts: seq<Packet>): multiset<nat> {
    multiset(IdList(pkts))
  }

  lemma IdsMember(pkts: seq<Packet>, id: nat)
    ensures id in Ids(pkts) <==> exists p :: p in pkts && p.id == id
  {
    if id in Ids(pkts) {
      assert id in IdList(pkts);
      var i :| 0 <= i < |pkts| && IdList(pkts)[i] == id;
      assert pkts[i] in pkts;
    }
    if p :| p in pkts && p.id == id {
      var i :| 0 <= i < |pkts| && pkts[i] == p;
      assert IdList(pkts)[i] in IdList(pkts);
    }
  }

  lemma IdsConcat(a: seq<Packet>, b: seq<Packet>)
    ensures Ids(a + b) == Ids(a) + Ids(b)
  {
    assert IdList(a + b) == IdList(a) + IdList(b);
  }

  lemma IdsOne(p: Packet)
    ensures Ids([p]) == multiset{p.id}
  {
    assert IdList([p]) == [p.id];
  }

  /** Splitting a list by a selection loses no packet and doubles none. */
  lemma {:induction false} KeepSplits(pkts: seq<Packet>, sel: Selection)
    ensures Ids(pkts) == Ids(Keep(pkts, sel, true)) + Ids(Keep(pkts, sel, false))
  {
    if pkts == [] {
    } else {
      var front, last := pkts[..|pkts| - 1], pkts[|pkts| - 1];
      var inside := Selects(sel, last);
      KeepSplits(front, sel);
      assert pkts == front + [last];
      IdsConcat(front, [last]);
      IdsConcat(Keep(front, sel, inside), [last]);
      assert Keep(front, sel, !inside) + [] == Keep(front, sel, !inside);
    }
  }

  lemma IdsCount(pkts: seq<Packet>, i: nat, j: nat)
    requires i < j < |pkts| && pkts[i].id == pkts[j].id
    ensures Ids(pkts)[pkts[i].id] >= 2
  {
    var ids := IdList(pkts);
    assert ids == ids[..j] + ids[j..];
    assert ids[i] == ids[..j][i] && ids[j] == ids[j..][0];
    assert ids[i] in ids[..j] && ids[i] in ids[j..];
  }

  lemma {:induction false} KeepShorter(pkts: seq<Packet>, sel: Selection, inside: bool)
    ensures |Keep(pkts, sel, inside)| <= |pkts|
  {
    if pkts != [] {
      KeepShorter(pkts[..|pkts| - 1], sel, inside);
    }
  }

  ghost predicate Distinct(pkts: seq<Packet>) {
    forall i, j :: 0 <= i < j < |pkts| ==> pkts[i].id != pkts[j].id
  }

  lemma {:induction false} KeepDistinct(pkts: seq<Packet>, sel: Selection, inside: bool)
    requires Distinct(pkts)
    ensures Distinct(Keep(pkts, sel, inside))
  {
    if pkts != [] {
      var front, last := pkts[..|pkts| - 1], pkts[|pkts| - 1];
      KeepDistinct(front, sel, inside);
      forall p | p in Keep(front, sel, inside)
        ensures p.id != last.id
      {
        KeepMember(front, sel, inside, p);
      }
    }
  }

  lemma {:induction false} KeepNoneInside(pkts: seq<Packet>, sel: Selection)
    requires forall p :: p in pkts ==> !Selects(sel, p)
    ensures Keep(pkts, sel, true) == []
  {
    if pkts != [] {
      KeepNoneInside(pkts[..|pkts| - 1], sel);
    }
  }

  lemma {:induction false} KeepOne(pkts: seq<Packet>, p: Packet)
    requires Distinct(pkts) && p in pkts
    ensures Keep(pkts, Is(p.id), true) == [p]
  {
    var front, last := pkts[..|pkts| - 1], pkts[|pkts| - 1];
    if p == last {
      KeepNoneInside(front, Is(p.id));
    } else {
      KeepOne(front, p);
    }
  }

  lemma {:induction false} KeepOthers(pkts: seq<Packet>, id: nat)
    requires forall k :: 0 <= k < |pkts| ==> pkts[k].id != id
    ensures Keep(pkts, Is(id), false) == pkts
  {
    if pkts != [] {
      KeepOthers(pkts[..|pkts| - 1], id);
      assert pkts == pkts[..|pkts| - 1] + [pkts[|pkts| - 1]];
    }
  }

  /** Python's `list.remove` takes out the first packet that is the given one, and so all of them. */
  lemma {:induction false} RemoveAtIsKeep(pkts: seq<Packet>, i: nat)
    requires Distinct(pkts) && i < |pkts|
    ensures pkts[..i] + pkts[i + 1..] == Keep(pkts, Is(pkts[i].id), false)
  {
    var front, last := pkts[..|pkts| - 1], pkts[|pkts| - 1];
    if i == |pkts| - 1 {
      KeepOthers(front, last.id);
      assert pkts[..i] + pkts[i + 1..] == front + [];
    } else {
      RemoveAtIsKeep(front, i);
      assert pkts[..i] + pkts[i + 1..] == (front[..i] + front[i + 1..]) + [last];
    }
  }

  /** The trail left by a batch of packets. */
  function Resolve(pkts: seq<Packet>, o: Outcome): (rs: seq<Resolution>)
    ensures |rs| == |pkts|
    ensures forall i :: 0 <= i < |pkts| ==> rs[i] == Resolution(pkts[i], o)
  {
    seq(|pkts|, i requires 0 <= i < |pkts| => Resolution(pkts[i], o))
  }

  function Packets(rs: seq<Resolution>): (pkts: seq<Packet>)
    ensures |pkts| == |rs|
    ensures forall i :: 0 <= i < |rs| ==> pkts[i] == rs[i].pkt
  {
    seq(|rs|, i requires 0 <= i < |rs| => rs[i].pkt)
  }

  // ---------------------------------------------------------------- handlers and events

  /**
   A handler that takes packets out one by one. Ending a packet's wait thread lets others run, so a
   handler pauses after each; `todo` is what it has selected and not yet removed, and `taken` what
   an ARP reply's handler is going to forward once it has removed everything.
   */
  datatype Kind = Reply(ip: Ip) | Deletion(net: Prefix)

  datatype Phase = Running | Done | Failed

  datatype Handler = Handler(kind: Kind, todo: seq<Packet>, taken: seq<Packet>, phase: Phase)

  /**
   The router's tables, the list, its running wait threads, the trail of resolved packets, every
   handler there was, and every packet that was ever suspended, in order.
   */
  datatype State = State(
    t: Tables, buffer: seq<Packet>, timers: set<nat>, resolved: seq<Resolution>,
    handlers: seq<Handler>, log: seq<Packet>)

  /**
   `Configure`: some handler changes the tables. `Arrive`: a packet for a host whose MAC address is
   unknown. `ArpReply` and `AddressGone` start a handler and run it up to its first pause, `Resume`
   runs one to its next. `TimerFires`: a wait thread wakes up.
   */
  datatype Event =
    | Configure(t: Tables)
    | Arrive(inPort: nat, dst: Ip)
    | ArpReply(ip: Ip)
    | AddressGone(net: Prefix)
    | Resume(i: nat)
    | TimerFires(id: nat)

  function Init(): State {
    State(EMPTY_TABLES, [], {}, [], [], [])
  }

  /** The ARP request sent for a packet to `dst`: from which router address, and whom it asks about. */
  ghost function RequestFor(t: Tables, dst: Ip): Option<(Ip, Ip)> {
    if AddressOf(t.addrs, dst).Some? then Some((AddressOf(t.addrs, dst).value.gw, dst))
    else
      match RouteOf(t.routes, dst)
      case None => None
      case Some(r) =>
        if AddressOf(t.addrs, r.gateway).Some? then Some((AddressOf(t.addrs, r.gateway).value.gw, r.gateway))
        else None
  }

  /** One packet leaves the list and its wait thread ends. */
  function Removed(s: State, id: nat): State {
    s.(buffer := Keep(s.buffer, Is(id), false), timers := s.timers - {id})
  }

  /**
   One turn of a handler, from pause to pause: `list.remove` raises ValueError for a packet that has
   left the list meanwhile, and the handler ends there.
   */
  function Turn(s: State, i: nat): State
    requires i < |s.handlers|
  {
    var h := s.handlers[i];
    if h.todo == [] then
      s.(handlers := s.handlers[i := h.(taken := [], phase := Done)],
         resolved := s.resolved + Resolve(h.taken, Forwarded))
    else if h.todo[0] !in s.buffer then
      s.(handlers := s.handlers[i := h.(phase := Failed)])
    else if h.kind.Reply? then
      Removed(s, h.todo[0].id)
        .(handlers := s.handlers[i := h.(todo := h.todo[1..], taken := h.taken + [h.todo[0]])])
    else
      Removed(s, h.todo[0].id)
        .(handlers := s.handlers[i := h.(todo := h.todo[1..])],
          resolved := s.resolved + Resolve([h.todo[0]], AddressDeleted))
  }

  function WithHandler(s: State, kind: Kind, list: seq<Packet>): State {
    s.(handlers := s.handlers + [Handler(kind, list, [], Running)])
  }

  function Begin(s: State, kind: Kind, list: seq<Packet>): State {
    if list == [] then s else Turn(WithHandler(s, kind, list), |s.handlers|)
  }

  function SelectionOf(kind: Kind): Selection {
    match kind
    case Reply(ip) => ToHost(ip)
    case Deletion(net) => InNet(net)
  }

  /** The packets a handler that starts now selects. */
  function Chosen(s: State, kind: Kind): seq<Packet> {
    Keep(s.buffer, SelectionOf(kind), true)
  }

  ghost function Step(s: State, e: Event): State
    requires Enabled(s, e)
  {
    match e
    case Configure(t) => s.(t := t)
    case Arrive(inPort, dst) =>
      if |s.buffer| >= MAX_SUSPENDPACKETS || RequestFor(s.t, dst).None? then s
      else WithPacket(s, Packet(|s.log|, inPort, dst, RequestFor(s.t, dst).value.1))
    case ArpReply(ip) => if AddressOf(s.t.addrs, ip).None? then s else Begin(s, Reply(ip), Chosen(s, Reply(ip)))
    case AddressGone(net) => Begin(s, Deletion(net), Chosen(s, Deletion(net)))
    case Resume(i) => Turn(s, i)
    case TimerFires(id) =>
      Removed(s, id).(resolved := s.resolved + Resolve(Keep(s.buffer, Is(id), true), HostUnreachable))
  }

  function WithPacket(s: State, p: Packet): State {
    s.(buffer := s.buffer + [p], timers := s.timers + {p.id}, log := s.log + [p])
  }

  /**
   Packet-ins are handled one at a time, so none starts before an ARP reply's handler is through. A
   wait thread can wake up until it is ended, and a handler can go on until it is.
   */
  predicate Enabled(s: State, e: Event) {
    match e
    case Arrive(_, _) => NoReplyRuns(s)
    case ArpReply(_) => NoReplyRuns(s)
    case Resume(i) => i < |s.handlers| && s.handlers[i].phase.Running?
    case TimerFires(id) => id in s.timers
    case _ => true
  }

  predicate NoReplyRuns(s: State) {
    forall i :: 0 <= i < |s.handlers| ==> !RepliesStill(s.handlers[i])
  }

  predicate RepliesStill(h: Handler) {
    h.kind.Reply? && h.phase.Running?
  }

  // ---------------------------------------------------------------- what every event keeps

  /** The packets some handler has taken out and not yet forwarded. */
  function Held(hs: seq<Handler>): seq<Packet> {
    if hs == [] then [] else Held(hs[..|hs| - 1]) + hs[|hs| - 1].taken
  }

  lemma AddOnBothSides(a: multiset<nat>, b: multiset<nat>, c: multiset<nat>, d: multiset<nat>, more: multiset<nat>)
    requires a + b == c + d
    ensures (a + more) + b == (c + more) + d
  {
    assert (a + more) + b == (a + b) + more;
    assert (c + more) + d == (c + d) + more;
  }

  lemma {:induction false} HeldUpdate(hs: seq<Handler>, i: nat, h: Handler)
    requires i < |hs|
    ensures Ids(Held(hs[i := h])) + Ids(hs[i].taken) == Ids(Held(hs)) + Ids(h.taken)
  {
    var n := |hs| - 1;
    IdsConcat(Held(hs[..n]), hs[n].taken);
    if i == n {
      assert hs[i := h][..n] == hs[..n];
      IdsConcat(Held(hs[..n]), h.taken);
    } else {
      assert hs[i := h][..n] == hs[..n][i := h];
      HeldUpdate(hs[..n], i, h);
      IdsConcat(Held(hs[..n][i := h]), hs[n].taken);
      assert Ids(Held(hs[i := h])) == Ids(Held(hs[..n][i := h])) + Ids(hs[n].taken);
      assert hs[..n][i] == hs[i];
      AddOnBothSides(Ids(Held(hs[..n][i := h])), Ids(hs[i].taken), Ids(Held(hs[..n])), Ids(h.taken), Ids(hs[n].taken));
    }
  }

  lemma HeldAppend(hs: seq<Handler>, h: Handler)
    ensures Held(hs + [h]) == Held(hs) + h.taken
  {
    assert (hs + [h])[..|hs|] == hs;
  }

  lemma {:induction false} HeldMember(hs: seq<Handler>, p: Packet)
    ensures p in Held(hs) <==> exists i :: 0 <= i < |hs| && p in hs[i].taken
  {
    if hs != [] {
      var n := |hs| - 1;
      HeldMember(hs[..n], p);
      if i :| 0 <= i < |hs| && p in hs[i].taken {
        assert i < n ==> hs[..n][i] == hs[i];
      }
      if i :| 0 <= i < n && p in hs[..n][i].taken {
        assert p in hs[i].taken;
      }
    }
  }

  /** Every packet that is in the list, was resolved, or is held by a handler, as often as it is. */
  function Traces(s: State): multiset<nat> {
    Ids(s.buffer) + Ids(Packets(s.resolved)) + Ids(Held(s.handlers))
  }

  ghost predicate Accounted(s: State) {
    forall id: nat :: Traces(s)[id] == if id < |s.log| then 1 else 0
  }

  ghost predicate TimersRun(s: State) {
    forall id :: id in s.timers <==> id in Ids(s.buffer)
  }

  predicate Known(log: seq<Packet>, p: Packet) {
    p.id < |log| && log[p.id] == p
  }

  predicate AllKnown(log: seq<Packet>, pkts: seq<Packet>) {
    forall i :: 0 <= i < |pkts| ==> Known(log, pkts[i])
  }

  ghost predicate HandlerOk(log: seq<Packet>, h: Handler) {
    && AllKnown(log, h.todo) && AllKnown(log, h.taken) && Distinct(h.todo)
    && (forall p :: p in h.todo || p in h.taken ==> Selects(SelectionOf(h.kind), p))
    && (h.kind.Deletion? ==> h.taken == [])
    && (h.phase.Done? ==> h.todo == [] && h.taken == [])
  }

  ghost predicate HandlersOk(s: State) {
    forall i :: 0 <= i < |s.handlers| ==> HandlerOk(s.log, s.handlers[i])
  }

  /** A reply's handler that has not forwarded yet holds at least one packet. */
  ghost predicate RepliesHold(s: State) {
    forall i :: 0 <= i < |s.handlers| && s.handlers[i].kind.Reply? && !s.handlers[i].phase.Done? ==>
      s.handlers[i].taken != []
  }

  ghost predicate Core(s: State) {
    && |s.buffer| <= MAX_SUSPENDPACKETS
    && Accounted(s) && TimersRun(s)
    && AllKnown(s.log, s.buffer) && AllKnown(s.log, Packets(s.resolved))
    && HandlersOk(s)
  }

  ghost predicate Inv(s: State) {
    Core(s) && RepliesHold(s)
  }

  lemma BufferDistinct(s: State)
    requires Accounted(s)
    ensures Distinct(s.buffer)
  {
    forall i, j | 0 <= i < j < |s.buffer|
      ensures s.buffer[i].id != s.buffer[j].id
    {
      assert Traces(s)[s.buffer[i].id] <= 1;
      if s.buffer[i].id == s.buffer[j].id {
        IdsCount(s.buffer, i, j);
      }
    }
  }

  lemma RemovedIds(pkts: seq<Packet>, p: Packet)
    requires Distinct(pkts) && p in pkts
    ensures Ids(pkts) == Ids(Keep(pkts, Is(p.id), false)) + multiset{p.id}
  {
    KeepSplits(pkts, Is(p.id));
    KeepOne(pkts, p);
    IdsOne(p);
  }

  lemma KeepKnown(log: seq<Packet>, pkts: seq<Packet>, sel: Selection, inside: bool)
    requires AllKnown(log, pkts)
    ensures AllKnown(log, Keep(pkts, sel, inside))
  {
    var kept := Keep(pkts, sel, inside);
    forall i | 0 <= i < |kept|
      ensures Known(log, kept[i])
    {
      KeepMember(pkts, sel, inside, kept[i]);
      assert kept[i] in kept;
    }
  }

  /** What remains to be shown of a packet that leaves the list: it shows up elsewhere. */
  lemma RemovedCore(s: State, p: Packet, s': State)
    requires Core(s) && p in s.buffer
    requires s'.buffer == Removed(s, p.id).buffer && s'.timers == Removed(s, p.id).timers && s'.log == s.log
    requires Ids(Packets(s'.resolved)) + Ids(Held(s'.handlers))
          == Ids(Packets(s.resolved)) + Ids(Held(s.handlers)) + multiset{p.id}
    requires AllKnown(s'.log, Packets(s'.resolved)) && HandlersOk(s')
    ensures Core(s')
  {
    BufferDistinct(s);
    RemovedIds(s.buffer, p);
    KeepShorter(s.buffer, Is(p.id), false);
    KeepKnown(s.log, s.buffer, Is(p.id), false);
    forall id: nat
      ensures Traces(s')[id] == Traces(s)[id]
    {
      SumAt(Ids(Packets(s'.resolved)), Ids(Held(s'.handlers)),
            Ids(Packets(s.resolved)) + Ids(Held(s.handlers)), multiset{p.id}, id);
    }
    TimersAfterRemoval(s, p, s');
  }

  lemma TimersAfterRemoval(s: State, p: Packet, s': State)
    requires TimersRun(s) && Accounted(s) && p in s.buffer
    requires s'.timers == s.timers - {p.id} && Ids(s.buffer) == Ids(s'.buffer) + multiset{p.id}
    ensures TimersRun(s')
  {
    assert Traces(s)[p.id] <= 1;
  }

  lemma NoIds()
    ensures Ids([]) == multiset{}
  {
    assert IdList([]) == [];
  }

  lemma SameTraces(s: State, s': State)
    requires Accounted(s) && s'.buffer == s.buffer && s'.log == s.log
    requires Ids(Packets(s'.resolved)) + Ids(Held(s'.handlers)) == Ids(Packets(s.resolved)) + Ids(Held(s.handlers))
    ensures Accounted(s')
  {
    forall id: nat
      ensures Traces(s')[id] == Traces(s)[id]
    {
      SumAt(Ids(Packets(s'.resolved)), Ids(Held(s'.handlers)), Ids(Packets(s.resolved)), Ids(Held(s.handlers)), id);
    }
  }

  lemma SumAt(a: multiset<nat>, b: multiset<nat>, c: multiset<nat>, d: multiset<nat>, id: nat)
    requires a + b == c + d
    ensures a[id] + b[id] == c[id] + d[id]
  {
    assert (a + b)[id] == (c + d)[id];
  }

  lemma ResolvedMore(rs: seq<Resolution>, pkts: seq<Packet>, o: Outcome)
    ensures Packets(rs + Resolve(pkts, o)) == Packets(rs) + pkts
    ensures Ids(Packets(rs + Resolve(pkts, o))) == Ids(Packets(rs)) + Ids(pkts)
  {
    IdsConcat(Packets(rs), pkts);
    assert Packets(rs + Resolve(pkts, o)) == Packets(rs) + pkts;
  }

  lemma TurnKeepsCore(s: State, i: nat)
    requires Core(s) && i < |s.handlers|
    ensures Core(Turn(s, i))
  {
    var h := s.handlers[i];
    assert HandlerOk(s.log, h);
    if h.todo == [] {
      FinishKeepsCore(s, i);
    } else if h.todo[0] !in s.buffer {
      HeldUpdate(s.handlers, i, h.(phase := Failed));
      Cancel(Ids(Held(Turn(s, i).handlers)), Ids(Held(s.handlers)), Ids(h.taken), multiset{});
      SameTraces(s, Turn(s, i));
    } else if h.kind.Reply? {
      TakeKeepsCore(s, i);
    } else {
      DropKeepsCore(s, i);
    }
  }

  lemma FinishKeepsCore(s: State, i: nat)
    requires Core(s) && i < |s.handlers| && s.handlers[i].todo == []
    ensures Core(Turn(s, i))
  {
    var h := s.handlers[i];
    var s' := Turn(s, i);
    HeldUpdate(s.handlers, i, h.(taken := [], phase := Done));
    NoIds();
    ResolvedMore(s.resolved, h.taken, Forwarded);
    assert (Ids(Packets(s.resolved)) + Ids(h.taken)) + Ids(Held(s'.handlers))
        == Ids(Packets(s.resolved)) + (Ids(Held(s'.handlers)) + Ids(h.taken));
    SameTraces(s, s');
  }

  lemma TailDistinct(pkts: seq<Packet>)
    requires Distinct(pkts) && pkts != []
    ensures Distinct(pkts[1..])
    ensures forall p :: p in pkts[1..] ==> p.id != pkts[0].id
  {
  }

  lemma Cancel(a: multiset<nat>, b: multiset<nat>, c: multiset<nat>, d: multiset<nat>)
    requires a + c == b + (c + d)
    ensures a == b + d
  {
    forall id
      ensures a[id] == (b + d)[id]
    {
      assert (a + c)[id] == (b + (c + d))[id];
    }
  }

  lemma TakeKeepsCore(s: State, i: nat)
    requires Core(s) && i < |s.handlers| && s.handlers[i].kind.Reply?
    requires s.handlers[i].todo != [] && s.handlers[i].todo[0] in s.buffer
    ensures Core(Turn(s, i))
  {
    var h := s.handlers[i];
    var h' := h.(todo := h.todo[1..], taken := h.taken + [h.todo[0]]);
    TailDistinct(h.todo);
    assert HandlerOk(s.log, h');
    HeldUpdate(s.handlers, i, h');
    IdsConcat(h.taken, [h.todo[0]]);
    IdsOne(h.todo[0]);
    Cancel(Ids(Held(Turn(s, i).handlers)), Ids(Held(s.handlers)), Ids(h.taken), multiset{h.todo[0].id});
    RemovedCore(s, h.todo[0], Turn(s, i));
  }

  lemma DropKeepsCore(s: State, i: nat)
    requires Core(s) && i < |s.handlers| && s.handlers[i].kind.Deletion?
    requires s.handlers[i].todo != [] && s.handlers[i].todo[0] in s.buffer
    ensures Core(Turn(s, i))
  {
    var h := s.handlers[i];
    var h' := h.(todo := h.todo[1..]);
    TailDistinct(h.todo);
    assert HandlerOk(s.log, h');
    HeldUpdate(s.handlers, i, h');
    IdsOne(h.todo[0]);
    Cancel(Ids(Held(Turn(s, i).handlers)), Ids(Held(s.handlers)), Ids(h.taken), multiset{});
    ResolvedMore(s.resolved, [h.todo[0]], AddressDeleted);
    RemovedCore(s, h.todo[0], Turn(s, i));
  }

  lemma ChosenOk(s: State, kind: Kind)
    requires Core(s)
    ensures Core(WithHandler(s, kind, Chosen(s, kind)))
    ensures forall p :: p in Chosen(s, kind) <==> p in s.buffer && Selects(SelectionOf(kind), p)
  {
    var list := Chosen(s, kind);
    BufferDistinct(s);
    KeepDistinct(s.buffer, SelectionOf(kind), true);
    KeepKnown(s.log, s.buffer, SelectionOf(kind), true);
    forall p
      ensures p in list <==> p in s.buffer && Selects(SelectionOf(kind), p)
    {
      KeepMember(s.buffer, SelectionOf(kind), true, p);
    }
    HeldAppend(s.handlers, Handler(kind, list, [], Running));
    assert Held(s.handlers) + [] == Held(s.handlers);
    assert Traces(WithHandler(s, kind, list)) == Traces(s);
  }

  lemma BeginKeepsInv(s: State, kind: Kind)
    requires Inv(s)
    ensures Inv(Begin(s, kind, Chosen(s, kind)))
  {
    var list := Chosen(s, kind);
    if list != [] {
      ChosenOk(s, kind);
      assert list[0] in list;
      TurnKeepsCore(WithHandler(s, kind, list), |s.handlers|);
    }
  }

  lemma ArriveAccounted(s: State, p: Packet)
    requires Accounted(s) && TimersRun(s) && p.id == |s.log|
    ensures Accounted(WithPacket(s, p)) && TimersRun(WithPacket(s, p))
  {
    IdsConcat(s.buffer, [p]);
    IdsOne(p);
    assert Traces(WithPacket(s, p)) == Traces(s) + multiset{p.id};
  }

  lemma ArriveKeepsInv(s: State, p: Packet)
    requires Inv(s) && p.id == |s.log| && |s.buffer| < MAX_SUSPENDPACKETS
    ensures Inv(WithPacket(s, p))
  {
    var s' := WithPacket(s, p);
    ArriveAccounted(s, p);
    forall i | 0 <= i < |s'.handlers|
      ensures HandlerOk(s'.log, s'.handlers[i])
    {
      assert HandlerOk(s.log, s.handlers[i]);
    }
  }

  /** The packet whose wait thread this is. */
  lemma TimerPacket(s: State, id: nat) returns (p: Packet)
    requires Core(s) && id in s.timers
    ensures p in s.buffer && p.id == id && Keep(s.buffer, Is(id), true) == [p]
  {
    IdsMember(s.buffer, id);
    p :| p in s.buffer && p.id == id;
    BufferDistinct(s);
    KeepOne(s.buffer, p);
  }

  lemma TimeoutKeepsInv(s: State, id: nat)
    requires Inv(s) && id in s.timers
    ensures Inv(Step(s, TimerFires(id)))
  {
    var p := TimerPacket(s, id);
    var s' := Step(s, TimerFires(id));
    assert s'.resolved == s.resolved + Resolve([p], HostUnreachable) && s'.handlers == s.handlers;
    ResolvedMore(s.resolved, [p], HostUnreachable);
    IdsOne(p);
    RemovedCore(s, p, s');
  }

  lemma StepKeepsInv(s: State, e: Event)
    requires Inv(s) && Enabled(s, e)
    ensures Inv(Step(s, e))
  {
    match e
    case Configure(t) => assert Traces(Step(s, e)) == Traces(s);
    case Arrive(inPort, dst) =>
      if |s.buffer| < MAX_SUSPENDPACKETS && RequestFor(s.t, dst).Some? {
        ArriveKeepsInv(s, Packet(|s.log|, inPort, dst, RequestFor(s.t, dst).value.1));
      }
    case ArpReply(ip) => BeginKeepsInv(s, Reply(ip));
    case AddressGone(net) => BeginKeepsInv(s, Deletion(net));
    case Resume(i) =>
      assert HandlerOk(s.log, s.handlers[i]);
      TurnKeepsCore(s, i);
    case TimerFires(id) => TimeoutKeepsInv(s, id);
  }

  // ---------------------------------------------------------------- runs

  ghost predicate IsRun(run: seq<Event>)
    decreases |run|, 0
  {
    run == [] || (IsRun(run[..|run| - 1]) && Enabled(After(run[..|run| - 1]), run[|run| - 1]))
  }

  ghost function After(run: seq<Event>): State
    requires IsRun(run)
    decreases |run|, 1
  {
    if run == [] then Init() else Step(After(run[..|run| - 1]), run[|run| - 1])
  }

  lemma InitInv()
    ensures Inv(Init())
  {
    NoIds();
  }

  /**
   After every run the limit holds, exactly the packets in the list have a running timer, and every
   packet ever suspended is in the list, resolved, or held by one handler, and in one way only.
   */
  lemma {:induction false} EveryRunAccountsForAll(run: seq<Event>)
    requires IsRun(run)
    ensures Inv(After(run))
  {
    if run == [] {
      InitInv();
    } else {
      EveryRunAccountsForAll(run[..|run| - 1]);
      StepKeepsInv(After(run[..|run| - 1]), run[|run| - 1]);
    }
  }

  // ---------------------------------------------------------------- handlers that are overtaken

  /** The event takes this packet out of the list, if it is still there. */
  ghost predicate TakesOut(s: State, e: Event, p: Packet) {
    match e
    case TimerFires(id) => p.id == id
    case Resume(i) => i < |s.handlers| && TakesNext(s.handlers[i].todo, p)
    case ArpReply(ip) => AddressOf(s.t.addrs, ip).Some? && TakesNext(Chosen(s, Reply(ip)), p)
    case AddressGone(net) => TakesNext(Chosen(s, Deletion(net)), p)
    case _ => false
  }

  predicate TakesNext(todo: seq<Packet>, p: Packet) {
    todo != [] && todo[0] == p
  }

  /**
   While handler `j` pauses, a timer or another handler takes out a packet that `j` has selected and
   not yet reached.
   */
  ghost predicate Overtakes(s: State, e: Event, j: nat)
    requires j < |s.handlers|
  {
    s.handlers[j].phase.Running? && e != Resume(j) && exists p :: p in s.handlers[j].todo && TakesOut(s, e, p)
  }

  /** The handler has failed, or will: a packet it is still to remove has left the list. */
  predicate Doomed(s: State, j: nat)
    requires j < |s.handlers|
  {
    var h := s.handlers[j];
    h.phase.Failed? || (h.phase.Running? && exists p :: p in h.todo && p !in s.buffer)
  }

  /** Where a packet was removed, the others stay. */
  lemma OthersStay(s: State, id: nat, q: Packet)
    ensures q in Removed(s, id).buffer <==> q in s.buffer && q.id != id
  {
    KeepMember(s.buffer, Is(id), false, q);
  }

  lemma SameIdSamePacket(s: State, j: nat, p: Packet, q: Packet)
    requires Core(s) && j < |s.handlers| && p in s.handlers[j].todo && Known(s.log, q)
    ensures p.id == q.id ==> p == q
  {
    assert HandlerOk(s.log, s.handlers[j]);
  }

  /** A removal dooms exactly the handlers that still have the packet to remove. */
  lemma RemovalDooms(s: State, q: Packet, s': State, j: nat)
    requires Core(s) && q in s.buffer && s'.buffer == Removed(s, q.id).buffer
    requires j < |s.handlers| && j < |s'.handlers| && s'.handlers[j] == s.handlers[j]
    ensures Doomed(s', j) <==> Doomed(s, j) || (s.handlers[j].phase.Running? && q in s.handlers[j].todo)
  {
    forall p | p in s.handlers[j].todo
      ensures p in s'.buffer <==> p in s.buffer && p != q
    {
      OthersStay(s, q.id, p);
      assert Known(s.log, q);
      SameIdSamePacket(s, j, p, q);
    }
  }

  /** A handler's own turn takes it towards its end, unless it was doomed. */
  lemma OwnTurnDooms(s: State, i: nat)
    requires Core(s) && i < |s.handlers| && s.handlers[i].phase.Running?
    ensures Doomed(Turn(s, i), i) <==> Doomed(s, i)
  {
    var h, s' := s.handlers[i], Turn(s, i);
    assert HandlerOk(s.log, h);
    if h.todo != [] && h.todo[0] in s.buffer {
      TailDistinct(h.todo);
      assert h.todo == [h.todo[0]] + h.todo[1..];
      forall p | p in h.todo[1..]
        ensures p in s'.buffer <==> p in s.buffer
      {
        OthersStay(s, h.todo[0].id, p);
      }
    }
  }

  lemma OtherTurnDooms(s: State, i: nat, j: nat)
    requires Core(s) && i < |s.handlers| && s.handlers[i].phase.Running? && j < |s.handlers| && j != i
    ensures Doomed(Turn(s, i), j)
       <==> Doomed(s, j) || (s.handlers[j].phase.Running? &&
                             exists p :: p in s.handlers[j].todo && TakesNext(s.handlers[i].todo, p))
  {
    var h, s' := s.handlers[i], Turn(s, i);
    assert s'.handlers[j] == s.handlers[j];
    if h.todo != [] && h.todo[0] in s.buffer {
      RemovalDooms(s, h.todo[0], s', j);
    }
  }

  lemma BeginDooms(s: State, kind: Kind, j: nat)
    requires Core(s) && j < |Begin(s, kind, Chosen(s, kind)).handlers|
    ensures Doomed(Begin(s, kind, Chosen(s, kind)), j)
       <==> j < |s.handlers| && (Doomed(s, j) || (s.handlers[j].phase.Running? &&
                                                  exists p :: p in s.handlers[j].todo && TakesNext(Chosen(s, kind), p)))
  {
    var list := Chosen(s, kind);
    if list != [] {
      ChosenOk(s, kind);
      var w, n := WithHandler(s, kind, list), |s.handlers|;
      if j == n {
        OwnTurnDooms(w, n);
      } else {
        OtherTurnDooms(w, n, j);
        assert w.handlers[j] == s.handlers[j];
      }
    }
  }

  lemma TimeoutDooms(s: State, id: nat, j: nat)
    requires Inv(s) && id in s.timers && j < |s.handlers|
    ensures Doomed(Step(s, TimerFires(id)), j) <==> Doomed(s, j) || Overtakes(s, TimerFires(id), j)
  {
    var q := TimerPacket(s, id);
    RemovalDooms(s, q, Step(s, TimerFires(id)), j);
    assert Known(s.log, q);
    forall p | p in s.handlers[j].todo
      ensures TakesOut(s, TimerFires(id), p) <==> p == q
    {
      SameIdSamePacket(s, j, p, q);
    }
  }

  lemma ArriveDooms(s: State, p: Packet, j: nat)
    requires Core(s) && p.id == |s.log| && j < |s.handlers|
    ensures Doomed(WithPacket(s, p), j) <==> Doomed(s, j)
  {
    assert HandlerOk(s.log, s.handlers[j]);
    assert p !in s.handlers[j].todo;
  }

  /** An event dooms a handler if and only if it overtakes it. */
  lemma StepDooms(s: State, e: Event, j: nat)
    requires Inv(s) && Enabled(s, e) && j < |Step(s, e).handlers|
    ensures Doomed(Step(s, e), j) <==> j < |s.handlers| && (Doomed(s, j) || Overtakes(s, e, j))
  {
    match e
    case Configure(t) =>
    case Arrive(inPort, dst) =>
      if |s.buffer| < MAX_SUSPENDPACKETS && RequestFor(s.t, dst).Some? {
        ArriveDooms(s, Packet(|s.log|, inPort, dst, RequestFor(s.t, dst).value.1), j);
      }
    case ArpReply(ip) => BeginDooms(s, Reply(ip), j);
    case AddressGone(net) => BeginDooms(s, Deletion(net), j);
    case Resume(i) =>
      if i == j {
        OwnTurnDooms(s, i);
      } else {
        OtherTurnDooms(s, i, j);
      }
    case TimerFires(id) => TimeoutDooms(s, id, j);
  }

  ghost predicate Overtaken(run: seq<Event>, j: nat)
    requires IsRun(run)
  {
    run != [] &&
      var front := run[..|run| - 1];
      || Overtaken(front, j)
      || (j < |After(front).handlers| && Overtakes(After(front), run[|run| - 1], j))
  }

  /** In every run, a handler fails or is bound to if and only if it was overtaken. */
  lemma {:induction false} DoomedExactly(run: seq<Event>, j: nat)
    requires IsRun(run)
    ensures Overtaken(run, j) <==> j < |After(run).handlers| && Doomed(After(run), j)
  {
    if run != [] {
      var front, e := run[..|run| - 1], run[|run| - 1];
      DoomedExactly(front, j);
      EveryRunAccountsForAll(front);
      HandlersStay(After(front), e);
      if j < |After(run).handlers| {
        StepDooms(After(front), e, j);
      }
    }
  }

  lemma HandlersStay(s: State, e: Event)
    requires Enabled(s, e)
    ensures |s.handlers| <= |Step(s, e).handlers|
    ensures forall i :: 0 <= i < |s.handlers| ==> Step(s, e).handlers[i].kind == s.handlers[i].kind
  {
  }

  /** A handler that is through has removed all it selected if and only if it was never overtaken. */
  lemma HandlerEndsExactly(run: seq<Event>, j: nat)
    requires IsRun(run) && j < |After(run).handlers| && !After(run).handlers[j].phase.Running?
    ensures After(run).handlers[j].phase.Done? <==> !Overtaken(run, j)
  {
    DoomedExactly(run, j);
  }

  // ---------------------------------------------------------------- which packets are forwarded

  predicate WasForwarded(s: State, p: Packet) {
    Resolution(p, Forwarded) in s.resolved
  }

  /** An ARP reply's handler has selected the packet and not forwarded it. */
  predicate InReply(s: State, p: Packet) {
    exists i :: 0 <= i < |s.handlers| && HandledBy(s.handlers[i], p)
  }

  predicate HandledBy(h: Handler, p: Packet) {
    h.kind.Reply? && (p in h.todo || p in h.taken)
  }

  /** The event is an ARP reply the packet has been waiting for, from a host of a registered network. */
  ghost predicate Answers(s: State, e: Event, p: Packet) {
    e == ArpReply(p.dst) && p in s.buffer && AddressOf(s.t.addrs, p.dst).Some?
  }

  lemma TurnServes(s: State, i: nat, p: Packet)
    requires Core(s) && i < |s.handlers|
    ensures WasForwarded(Turn(s, i), p) || InReply(Turn(s, i), p) <==> WasForwarded(s, p) || InReply(s, p)
  {
    var h, s' := s.handlers[i], Turn(s, i);
    assert HandlerOk(s.log, h);
    assert WasForwarded(s', p) || HandledBy(s'.handlers[i], p) <==> WasForwarded(s, p) || HandledBy(h, p) by {
      TurnServesOwn(s, i, p);
    }
    if WasForwarded(s, p) {
      assert WasForwarded(s', p);
    }
    if j :| 0 <= j < |s.handlers| && HandledBy(s.handlers[j], p) {
      assert j != i ==> HandledBy(s'.handlers[j], p);
    }
    if j :| 0 <= j < |s'.handlers| && HandledBy(s'.handlers[j], p) {
      assert j != i ==> HandledBy(s.handlers[j], p);
    }
  }

  lemma TurnServesOwn(s: State, i: nat, p: Packet)
    requires i < |s.handlers| && HandlerOk(s.log, s.handlers[i])
    ensures WasForwarded(Turn(s, i), p) || HandledBy(Turn(s, i).handlers[i], p)
       <==> WasForwarded(s, p) || HandledBy(s.handlers[i], p)
    ensures WasForwarded(s, p) ==> WasForwarded(Turn(s, i), p)
  {
    var h, s' := s.handlers[i], Turn(s, i);
    if h.todo == [] {
      ResolveMember(s.resolved, h.taken, Forwarded, p, Forwarded);
    } else if h.todo[0] in s.buffer {
      assert h.todo == [h.todo[0]] + h.todo[1..];
      if h.kind.Deletion? {
        ResolveMember(s.resolved, [h.todo[0]], AddressDeleted, p, Forwarded);
      }
    }
  }

  lemma ResolveMember(rs: seq<Resolution>, pkts: seq<Packet>, o: Outcome, p: Packet, o': Outcome)
    ensures Resolution(p, o') in rs + Resolve(pkts, o) <==> Resolution(p, o') in rs || (o == o' && p in pkts)
  {
    var out := Resolve(pkts, o);
    if o == o' && p in pkts {
      var i :| 0 <= i < |pkts| && pkts[i] == p;
      assert out[i] in out;
    }
  }

  lemma BeginServes(s: State, kind: Kind, p: Packet)
    requires Core(s)
    ensures var s' := Begin(s, kind, Chosen(s, kind));
      WasForwarded(s', p) || InReply(s', p)
      <==> WasForwarded(s, p) || InReply(s, p) || (kind == Reply(p.dst) && p in s.buffer)
  {
    var list := Chosen(s, kind);
    ChosenOk(s, kind);
    if list != [] {
      var w, n := WithHandler(s, kind, list), |s.handlers|;
      TurnServes(w, n, p);
      if j :| 0 <= j < |s.handlers| && HandledBy(s.handlers[j], p) {
        assert HandledBy(w.handlers[j], p);
      }
      if j :| 0 <= j < |w.handlers| && HandledBy(w.handlers[j], p) {
        assert j < n ==> HandledBy(s.handlers[j], p);
      }
      assert HandledBy(w.handlers[n], p) <==> kind == Reply(p.dst) && p in s.buffer;
    }
  }

  lemma StepServes(s: State, e: Event, p: Packet)
    requires Inv(s) && Enabled(s, e)
    ensures WasForwarded(Step(s, e), p) || InReply(Step(s, e), p)
       <==> WasForwarded(s, p) || InReply(s, p) || Answers(s, e, p)
  {
    match e
    case Configure(t) =>
    case Arrive(inPort, dst) =>
    case ArpReply(ip) => BeginServes(s, Reply(ip), p);
    case AddressGone(net) => BeginServes(s, Deletion(net), p);
    case Resume(i) => TurnServes(s, i, p);
    case TimerFires(id) => ResolveMember(s.resolved, Keep(s.buffer, Is(id), true), HostUnreachable, p, Forwarded);
  }

  /** Some ARP reply of the run came from the packet's own destination while the packet waited. */
  ghost predicate Answered(run: seq<Event>, p: Packet)
    requires IsRun(run)
  {
    run != [] && (Answered(run[..|run| - 1], p) || Answers(After(run[..|run| - 1]), run[|run| - 1], p))
  }

  /** In every run: what is forwarded, or waits in a handler to be, was answered, and nothing else was. */
  lemma {:induction false} AnsweredPackets(run: seq<Event>, p: Packet)
    requires IsRun(run)
    ensures Answered(run, p) <==> WasForwarded(After(run), p) || InReply(After(run), p)
  {
    if run != [] {
      var front := run[..|run| - 1];
      AnsweredPackets(front, p);
      EveryRunAccountsForAll(front);
      StepServes(After(front), run[|run| - 1], p);
    }
  }

  /** No handler pauses. */
  predicate Settled(s: State) {
    forall i :: 0 <= i < |s.handlers| ==> !s.handlers[i].phase.Running?
  }

  ghost predicate RepliesNotOvertaken(run: seq<Event>)
    requires IsRun(run)
  {
    forall j :: 0 <= j < |After(run).handlers| && After(run).handlers[j].kind.Reply? ==> !Overtaken(run, j)
  }

  /** Of a packet that a failed handler holds nothing else is left. */
  lemma HeldOnly(s: State, i: nat, p: Packet)
    requires Core(s) && i < |s.handlers| && p in s.handlers[i].taken
    ensures p !in s.buffer && forall r :: r in s.resolved ==> r.pkt.id != p.id
  {
    HeldMember(s.handlers, p);
    assert HandlerOk(s.log, s.handlers[i]) && Known(s.log, p);
    IdsMember(Held(s.handlers), p.id);
    IdsMember(s.buffer, p.id);
    IdsMember(Packets(s.resolved), p.id);
    assert Traces(s)[p.id] <= 1;
    forall r | r in s.resolved
      ensures r.pkt.id != p.id
    {
      var k :| 0 <= k < |s.resolved| && s.resolved[k] == r;
      assert Packets(s.resolved)[k] in Packets(s.resolved);
    }
  }

  /** A reply's handler that is through holds packets if and only if it failed. */
  lemma FailedHolds(run: seq<Event>)
    requires IsRun(run) && Settled(After(run))
    ensures var s := After(run);
      forall j :: 0 <= j < |s.handlers| ==>
        (s.handlers[j].taken != [] <==> s.handlers[j].kind.Reply? && Overtaken(run, j))
    ensures var s := After(run);
      forall j, p :: 0 <= j < |s.handlers| && HandledBy(s.handlers[j], p) ==> Overtaken(run, j)
  {
    var s := After(run);
    EveryRunAccountsForAll(run);
    forall j | 0 <= j < |s.handlers|
      ensures s.handlers[j].taken != [] <==> s.handlers[j].kind.Reply? && Overtaken(run, j)
      ensures forall p :: HandledBy(s.handlers[j], p) ==> Overtaken(run, j)
    {
      assert HandlerOk(s.log, s.handlers[j]);
      HandlerEndsExactly(run, j);
    }
  }

  /**
   Once no handler pauses, every packet whose destination answered in time has been forwarded, if and
   only if no reply's handler was overtaken.
   */
  lemma AnsweredAreForwarded(run: seq<Event>)
    requires IsRun(run) && Settled(After(run))
    ensures (forall p :: Answered(run, p) ==> WasForwarded(After(run), p)) <==> RepliesNotOvertaken(run)
  {
    var s := After(run);
    EveryRunAccountsForAll(run);
    FailedHolds(run);
    if RepliesNotOvertaken(run) {
      forall p | Answered(run, p)
        ensures WasForwarded(s, p)
      {
        AnsweredPackets(run, p);
      }
    } else {
      var j :| 0 <= j < |s.handlers| && s.handlers[j].kind.Reply? && Overtaken(run, j);
      var p := s.handlers[j].taken[0];
      assert HandledBy(s.handlers[j], p);
      AnsweredPackets(run, p);
      HeldOnly(s, j, p);
      assert Answered(run, p) && !WasForwarded(s, p);
    }
  }

  /** The packet is in the list and its timer runs. */
  predicate IsWaiting(s: State, id: nat) {
    id < |s.log| && s.log[id] in s.buffer && id in s.timers
  }

  predicate IsResolved(s: State, id: nat) {
    id < |s.log| && exists r :: r in s.resolved && r.pkt == s.log[id]
  }

  predicate IsHeld(s: State, id: nat) {
    id < |s.log| && exists i :: 0 <= i < |s.handlers| && s.log[id] in s.handlers[i].taken
  }

  lemma KnownMember(log: seq<Packet>, pkts: seq<Packet>, id: nat)
    requires AllKnown(log, pkts) && id < |log| && id in Ids(pkts)
    ensures log[id] in pkts
  {
    IdsMember(pkts, id);
  }

  /** In every state of a run each packet that was ever suspended is in exactly one place. */
  lemma OnePlaceEach(run: seq<Event>, id: nat)
    requires IsRun(run) && id < |After(run).log|
    ensures var s := After(run);
      && (IsWaiting(s, id) || IsResolved(s, id) || IsHeld(s, id))
      && !(IsWaiting(s, id) && IsResolved(s, id))
      && !(IsHeld(s, id) && (IsWaiting(s, id) || IsResolved(s, id)))
  {
    EveryRunAccountsForAll(run);
    PlaceOf(After(run), id);
    PlacesApart(After(run), id);
  }

  lemma PlaceOf(s: State, id: nat)
    requires Core(s) && id < |s.log|
    ensures IsWaiting(s, id) || IsResolved(s, id) || IsHeld(s, id)
  {
    var p := s.log[id];
    assert Traces(s)[id] == 1;
    if id in Ids(s.buffer) {
      KnownMember(s.log, s.buffer, id);
    } else if id in Ids(Packets(s.resolved)) {
      KnownMember(s.log, Packets(s.resolved), id);
      var k :| 0 <= k < |s.resolved| && Packets(s.resolved)[k] == p;
      assert s.resolved[k] in s.resolved;
    } else {
      IdsMember(Held(s.handlers), id);
      var q :| q in Held(s.handlers) && q.id == id;
      HeldMember(s.handlers, q);
      var i :| 0 <= i < |s.handlers| && q in s.handlers[i].taken;
      assert HandlerOk(s.log, s.handlers[i]) && Known(s.log, q);
    }
  }

  lemma PlacesApart(s: State, id: nat)
    requires Core(s) && id < |s.log|
    ensures !(IsWaiting(s, id) && IsResolved(s, id))
    ensures !(IsHeld(s, id) && (IsWaiting(s, id) || IsResolved(s, id)))
  {
    var p := s.log[id];
    if i :| 0 <= i < |s.handlers| && p in s.handlers[i].taken {
      HeldOnly(s, i, p);
    }
    if p in s.buffer {
      WaitingOnly(s, p);
    }
  }

  lemma WaitingOnly(s: State, p: Packet)
    requires Core(s) && p in s.buffer
    ensures forall r :: r in s.resolved ==> r.pkt.id != p.id
  {
    IdsMember(s.buffer, p.id);
    IdsMember(Packets(s.resolved), p.id);
    assert Known(s.log, p);
    assert Traces(s)[p.id] <= 1;
    forall r | r in s.resolved
      ensures r.pkt.id != p.id
    {
      var k :| 0 <= k < |s.resolved| && s.resolved[k] == r;
      assert Packets(s.resolved)[k] in Packets(s.resolved);
    }
  }

  /** No packet is resolved twice. */
  lemma ResolvedOnce(run: seq<Event>, i: nat, j: nat)
    requires IsRun(run) && i < j < |After(run).resolved|
    ensures After(run).resolved[i].pkt.id != After(run).resolved[j].pkt.id
  {
    EveryRunAccountsForAll(run);
    var done := Packets(After(run).resolved);
    assert Traces(After(run))[done[i].id] <= 1;
    if done[i].id == done[j].id {
      IdsCount(done, i, j);
    }
  }

  /**
   Conservation: once no handler pauses, every packet ever suspended is in the list with its timer
   running or was resolved, if and only if no reply's handler was overtaken.
   */
  lemma BufferedOrResolved(run: seq<Event>)
    requires IsRun(run) && Settled(After(run))
    ensures var s := After(run);
      (forall id: nat :: id < |s.log| ==> IsWaiting(s, id) || IsResolved(s, id)) <==> RepliesNotOvertaken(run)
  {
    var s := After(run);
    EveryRunAccountsForAll(run);
    FailedHolds(run);
    if RepliesNotOvertaken(run) {
      forall id: nat | id < |s.log|
        ensures IsWaiting(s, id) || IsResolved(s, id)
      {
        PlaceOf(s, id);
      }
    } else {
      var j :| 0 <= j < |s.handlers| && s.handlers[j].kind.Reply? && Overtaken(run, j);
      var p := s.handlers[j].taken[0];
      assert HandlerOk(s.log, s.handlers[j]) && Known(s.log, p);
      PlacesApart(s, p.id);
      assert IsHeld(s, p.id);
    }
  }

  // ---------------------------------------------------------------- a run that loses a packet

  /**
   Two packets wait for `dst`, whose reply arrives late: while the handler pauses after removing the
   first, the timer of the second wakes up and takes it out of the list.
   */
  function LosingRun(t: Tables, dst: Ip): seq<Event> {
    [Configure(t), Arrive(1, dst), Arrive(1, dst), ArpReply(dst), TimerFires(1), Resume(0)]
  }

  lemma Extend(run: seq<Event>, e: Event, s: State)
    requires IsRun(run) && After(run) == s && Enabled(s, e)
    ensures IsRun(run + [e]) && After(run + [e]) == Step(s, e)
  {
    assert (run + [e])[..|run|] == run;
  }

  lemma TwoWaiting(t: Tables, dst: Ip)
    requires AddressOf(t.addrs, dst).Some?
    ensures var run := [Configure(t), Arrive(1, dst), Arrive(1, dst)];
      var p, q := Packet(0, 1, dst, dst), Packet(1, 1, dst, dst);
      IsRun(run) && After(run) == State(t, [p, q], {0, 1}, [], [], [p, q])
  {
    var p, q := Packet(0, 1, dst, dst), Packet(1, 1, dst, dst);
    var first, second := [Configure(t)], [Configure(t), Arrive(1, dst)];
    Extend([], Configure(t), Init());
    assert [] + [Configure(t)] == first;
    Extend(first, Arrive(1, dst), Init().(t := t));
    assert first + [Arrive(1, dst)] == second;
    Extend(second, Arrive(1, dst), State(t, [p], {0}, [], [], [p]));
    assert second + [Arrive(1, dst)] == [Configure(t), Arrive(1, dst), Arrive(1, dst)];
    assert [p] + [q] == [p, q] && {0} + {1} == {0, 1};
  }

  function BothWaiting(t: Tables, p: Packet, q: Packet): State {
    State(t, [p, q], {0, 1}, [], [], [p, q])
  }

  function AfterFirstRemoval(t: Tables, p: Packet, q: Packet): State {
    State(t, [q], {1}, [], [Handler(Reply(p.dst), [q], [p], Running)], [p, q])
  }

  function AfterTimer(t: Tables, p: Packet, q: Packet): State {
    State(t, [], {}, [Resolution(q, HostUnreachable)], [Handler(Reply(p.dst), [q], [p], Running)], [p, q])
  }

  function AfterFailure(t: Tables, p: Packet, q: Packet): State {
    AfterTimer(t, p, q).(handlers := [Handler(Reply(p.dst), [q], [p], Failed)])
  }

  lemma KeepPair(p: Packet, q: Packet, sel: Selection, inside: bool)
    ensures Keep([p, q], sel, inside)
         == (if Selects(sel, p) == inside then [p] else []) + (if Selects(sel, q) == inside then [q] else [])
  {
    assert [p, q][..1] == [p] && [p][..0] == [];
    assert Keep([p], sel, inside) == if Selects(sel, p) == inside then [p] else [];
  }

  lemma FirstRemoval(t: Tables, p: Packet, q: Packet)
    requires AddressOf(t.addrs, p.dst).Some? && p.id == 0 && q.id == 1 && p.dst == q.dst
    ensures Step(BothWaiting(t, p, q), ArpReply(p.dst)) == AfterFirstRemoval(t, p, q)
  {
    var s, both := BothWaiting(t, p, q), [p, q];
    KeepPair(p, q, ToHost(p.dst), true);
    KeepPair(p, q, Is(0), false);
    assert Chosen(s, Reply(p.dst)) == both;
    var w := WithHandler(s, Reply(p.dst), both);
    assert w.handlers == [Handler(Reply(p.dst), both, [], Running)];
    assert both[1..] == [q] && [] + [p] == [p];
    assert Removed(w, 0).timers == {1};
    assert Turn(w, 0) == AfterFirstRemoval(t, p, q);
  }

  lemma TimerInBetween(t: Tables, p: Packet, q: Packet)
    requires q.id == 1
    ensures Step(AfterFirstRemoval(t, p, q), TimerFires(1)) == AfterTimer(t, p, q)
  {
    assert [q][..0] == [];
    assert Keep([q][..0], Is(1), false) == [] && Keep([q], Is(1), true) == [q];
    assert Keep([q], Is(1), false) == [] + [];
  }

  lemma SecondRemovalFails(t: Tables, p: Packet, q: Packet)
    ensures Step(AfterTimer(t, p, q), Resume(0)) == AfterFailure(t, p, q)
  {
  }

  lemma LateReply(run: seq<Event>, t: Tables, p: Packet, q: Packet)
    requires IsRun(run) && After(run) == BothWaiting(t, p, q)
    requires AddressOf(t.addrs, p.dst).Some? && p.id == 0 && q.id == 1 && p.dst == q.dst
    ensures var run' := run + [ArpReply(p.dst)] + [TimerFires(1)] + [Resume(0)];
      IsRun(run') && After(run') == AfterFailure(t, p, q)
  {
    FirstRemoval(t, p, q);
    Extend(run, ArpReply(p.dst), BothWaiting(t, p, q));
    TimerInBetween(t, p, q);
    Extend(run + [ArpReply(p.dst)], TimerFires(1), AfterFirstRemoval(t, p, q));
    SecondRemovalFails(t, p, q);
    Extend(run + [ArpReply(p.dst)] + [TimerFires(1)], Resume(0), AfterTimer(t, p, q));
  }

  /** Such a run ends with every handler through and the first packet neither waiting nor resolved. */
  lemma TimerBetweenRemovals(t: Tables, dst: Ip)
    requires AddressOf(t.addrs, dst).Some?
    ensures var run := LosingRun(t, dst);
      && IsRun(run)
      && Settled(After(run))
      && Answered(run, Packet(0, 1, dst, dst))
      && !IsWaiting(After(run), 0) && !IsResolved(After(run), 0)
  {
    var p, q := Packet(0, 1, dst, dst), Packet(1, 1, dst, dst);
    TwoWaiting(t, dst);
    var run := [Configure(t), Arrive(1, dst), Arrive(1, dst)];
    LateReply(run, t, p, q);
    assert run + [ArpReply(dst)] + [TimerFires(1)] + [Resume(0)] == LosingRun(t, dst);
    assert HandledBy(After(LosingRun(t, dst)).handlers[0], p);
    AnsweredPackets(LosingRun(t, dst), p);
  }

  // ---------------------------------------------------------------- handlers come to an end

  /** The turns the running handlers still have at most. */
  function TurnsLeft(hs: seq<Handler>): nat {
    if hs == [] then 0
    else TurnsLeft(hs[..|hs| - 1]) + if hs[|hs| - 1].phase.Running? then |hs[|hs| - 1].todo| + 1 else 0
  }

  lemma {:induction false} TurnsLeftUpdate(hs: seq<Handler>, i: nat, h: Handler)
    requires i < |hs| && hs[i].phase.Running? && (h.phase.Running? ==> |h.todo| < |hs[i].todo|)
    ensures TurnsLeft(hs[i := h]) < TurnsLeft(hs)
  {
    var n := |hs| - 1;
    if i == n {
      assert hs[i := h][..n] == hs[..n];
    } else {
      assert hs[i := h][..n] == hs[..n][i := h];
      assert hs[..n][i] == hs[i];
      TurnsLeftUpdate(hs[..n], i, h);
    }
  }

  predicate OnlyResumes(es: seq<Event>) {
    forall i :: 0 <= i < |es| ==> es[i].Resume?
  }

  ghost predicate SettlesBy(run: seq<Event>, more: seq<Event>) {
    OnlyResumes(more) && IsRun(run + more) && Settled(After(run + more))
  }

  /** Whatever happened, the handlers that pause come to their ends by going on. */
  lemma {:induction false} EveryRunSettles(run: seq<Event>)
    requires IsRun(run)
    ensures exists more :: SettlesBy(run, more)
    decreases TurnsLeft(After(run).handlers)
  {
    var s := After(run);
    if Settled(s) {
      assert run + [] == run;
      assert SettlesBy(run, []);
    } else {
      var i :| 0 <= i < |s.handlers| && s.handlers[i].phase.Running?;
      Extend(run, Resume(i), s);
      TurnLowers(s, i);
      EveryRunSettles(run + [Resume(i)]);
      var rest :| SettlesBy(run + [Resume(i)], rest);
      SettlesLater(run, i, rest);
    }
  }

  lemma TurnLowers(s: State, i: nat)
    requires i < |s.handlers| && s.handlers[i].phase.Running?
    ensures TurnsLeft(Turn(s, i).handlers) < TurnsLeft(s.handlers)
  {
    TurnsLeftUpdate(s.handlers, i, Turn(s, i).handlers[i]);
  }

  lemma SettlesLater(run: seq<Event>, i: nat, rest: seq<Event>)
    requires SettlesBy(run + [Resume(i)], rest)
    ensures SettlesBy(run, [Resume(i)] + rest)
  {
    assert run + ([Resume(i)] + rest) == run + [Resume(i)] + rest;
  }

  // ---------------------------------------------------------------- why a packet left the list

  /** The event that starts such a handler. */
  function StartOf(kind: Kind): Event {
    match kind
    case Reply(ip) => ArpReply(ip)
    case Deletion(net) => AddressGone(net)
  }

  lemma {:induction false} HandlersStarted(run: seq<Event>, i: nat)
    requires IsRun(run) && i < |After(run).handlers|
    ensures StartOf(After(run).handlers[i].kind) in run
  {
    var front, e := run[..|run| - 1], run[|run| - 1];
    assert run == front + [e];
    var s := After(front);
    HandlersStay(s, e);
    if i < |s.handlers| {
      HandlersStarted(front, i);
    } else {
      NewHandlerStarted(s, e, i);
    }
  }

  lemma NewHandlerStarted(s: State, e: Event, i: nat)
    requires Enabled(s, e) && |s.handlers| <= i < |Step(s, e).handlers|
    ensures StartOf(Step(s, e).handlers[i].kind) == e
  {
  }

  /** What must have happened for a packet to be resolved like this. */
  ghost predicate Explained(run: seq<Event>, r: Resolution)
    requires IsRun(run)
  {
    match r.outcome
    case Forwarded => Answered(run, r.pkt)
    case HostUnreachable => TimerFires(r.pkt.id) in run
    case AddressDeleted => exists net :: Covers(net, r.pkt.dst) && AddressGone(net) in run
  }

  /** Every outcome in a run is due to an event of that run that calls for it. */
  lemma {:induction false} EveryOutcomeExplained(run: seq<Event>, r: Resolution)
    requires IsRun(run) && r in After(run).resolved
    ensures Explained(run, r)
  {
    var front, e := run[..|run| - 1], run[|run| - 1];
    assert run == front + [e];
    var s := After(front);
    EveryRunAccountsForAll(front);
    if r.outcome.Forwarded? {
      AnsweredPackets(run, r.pkt);
    } else if r in s.resolved {
      EveryOutcomeExplained(front, r);
    } else if r.outcome.HostUnreachable? {
      UnreachableByTimer(s, e, r);
    } else {
      var net := DroppedByDeletion(s, e, r);
      if e.Resume? {
        HandlersStarted(front, e.i);
      }
    }
  }

  lemma UnreachableByTimer(s: State, e: Event, r: Resolution)
    requires Enabled(s, e) && r in Step(s, e).resolved && r !in s.resolved && r.outcome.HostUnreachable?
    ensures e == TimerFires(r.pkt.id)
  {
    if e.TimerFires? {
      KeepMember(s.buffer, Is(e.id), true, r.pkt);
    }
  }

  lemma DroppedByDeletion(s: State, e: Event, r: Resolution) returns (net: Prefix)
    requires Inv(s) && Enabled(s, e) && r in Step(s, e).resolved && r !in s.resolved && r.outcome.AddressDeleted?
    ensures Covers(net, r.pkt.dst)
    ensures e == AddressGone(net) || (e.Resume? && s.handlers[e.i].kind == Deletion(net))
  {
    if e.Resume? {
      var h := s.handlers[e.i];
      assert HandlerOk(s.log, h);
      if h.todo != [] {
        ResolveMember(s.resolved, [h.todo[0]], AddressDeleted, r.pkt, AddressDeleted);
      }
      assert r.pkt in h.todo;
      net := h.kind.net;
    } else {
      net := e.net;
      ChosenOk(s, Deletion(net));
      assert Chosen(s, Deletion(net))[0] in Chosen(s, Deletion(net));
    }
  }

  // ---------------------------------------------------------------- packets that leave through a gateway

  lemma LogGrows(s: State, e: Event)
    requires Enabled(s, e)
    ensures s.log <= Step(s, e).log && |Step(s, e).log| <= |s.log| + 1
    ensures |Step(s, e).log| > |s.log| ==>
      e.Arrive? && RequestFor(s.t, e.dst).Some?
      && Step(s, e).log == s.log + [Packet(|s.log|, e.inPort, e.dst, RequestFor(s.t, e.dst).value.1)]
  {
  }

  /** No network contained the destination when the packet came, and its route led through `asked`. */
  ghost predicate CameUnregistered(run: seq<Event>, p: Packet)
    requires IsRun(run)
  {
    run != [] &&
      var front := run[..|run| - 1];
      var t := After(front).t;
      || CameUnregistered(front, p)
      || (&& run[|run| - 1] == Arrive(p.inPort, p.dst)
          && |After(front).log| == p.id
          && AddressOf(t.addrs, p.dst).None?
          && RouteOf(t.routes, p.dst).Some?
          && RouteOf(t.routes, p.dst).value.gateway == p.asked)
  }

  lemma {:induction false} AskedGateway(run: seq<Event>, p: Packet)
    requires IsRun(run) && Known(After(run).log, p) && p.asked != p.dst
    ensures CameUnregistered(run, p)
  {
    if run != [] {
      var front := run[..|run| - 1];
      LogGrows(After(front), run[|run| - 1]);
      if p.id < |After(front).log| {
        AskedGateway(front, p);
      }
    }
  }

  /** Since the packet came, some registered network contained its destination. */
  ghost predicate RegisteredSince(run: seq<Event>, p: Packet)
    requires IsRun(run)
  {
    || (p.id < |After(run).log| && AddressOf(After(run).t.addrs, p.dst).Some?)
    || (run != [] && RegisteredSince(run[..|run| - 1], p))
  }

  lemma {:induction false} AnsweredNeedsAddress(run: seq<Event>, p: Packet)
    requires IsRun(run) && Answered(run, p)
    ensures RegisteredSince(run, p)
  {
    var front := run[..|run| - 1];
    if Answered(front, p) {
      AnsweredNeedsAddress(front, p);
    } else {
      EveryRunAccountsForAll(front);
      assert Known(After(front).log, p);
    }
  }

  /**
   A packet that was sent on its way through a gateway came when no registered network contained its
   destination. Once no handler pauses and none was overtaken, it has been forwarded if and only if an
   ARP reply came from its destination itself while it waited; a network for that destination must
   have been registered meanwhile, and whatever the gateway answered made no difference.
   */
  lemma GatewayPacketExact(run: seq<Event>, p: Packet)
    requires IsRun(run) && Settled(After(run)) && RepliesNotOvertaken(run)
    requires Known(After(run).log, p) && p.asked != p.dst
    ensures WasForwarded(After(run), p) <==> Answered(run, p)
    ensures WasForwarded(After(run), p) ==> RegisteredSince(run, p)
    ensures CameUnregistered(run, p)
  {
    AnsweredPackets(run, p);
    AnsweredAreForwarded(run);
    if Answered(run, p) {
      AnsweredNeedsAddress(run, p);
    }
    AskedGateway(run, p);
  }

  /** Without a network for its destination such a packet is never forwarded, in any run. */
  lemma GatewayRepliesForwardNothing(run: seq<Event>, p: Packet)
    requires IsRun(run) && !RegisteredSince(run, p)
    ensures !WasForwarded(After(run), p)
  {
    AnsweredPackets(run, p);
    if Answered(run, p) {
      AnsweredNeedsAddress(run, p);
    }
  }

  // ---------------------------------------------------------------- what is asked, and what is suspended

  /**
   A host of a registered network is asked itself, from the router address of that network; any other
   destination is asked for through the gateway of its longest static route or, without one, of the
   default route, from the router address of the network the gateway lies in.
   */
  lemma RequestAsks(t: Tables, dst: Ip)
    requires NetsDisjoint(t.addrs)
    ensures forall p :: p in t.addrs && Covers(p, dst) ==> RequestFor(t, dst) == Some((t.addrs[p].gw, dst))
    ensures (forall p :: p in t.addrs ==> !Covers(p, dst)) ==>
      && (forall q :: IsLongest(t.routes, dst, q) ==> AsksGateway(t, t.routes[q], RequestFor(t, dst)))
      && ((forall q :: !StaticFor(t.routes, dst, q)) ==>
            if DEFAULT_NET in t.routes then AsksGateway(t, t.routes[DEFAULT_NET], RequestFor(t, dst))
            else RequestFor(t, dst) == None)
  {
    forall p, ip | p in t.addrs && Covers(p, ip)
      ensures AddressOf(t.addrs, ip) == Some(t.addrs[p])
    {
      AddressOfUnique(t.addrs, ip, p);
    }
    forall q | IsLongest(t.routes, dst, q)
      ensures LongestStatic(t.routes, dst) == Some(t.routes[q])
    {
      LongestUnique(t.routes, dst, q);
    }
    assert forall q :: IsLongest(t.routes, dst, q) ==> StaticFor(t.routes, dst, q);
  }

  ghost predicate AsksGateway(t: Tables, r: Route, request: Option<(Ip, Ip)>) {
    && (forall p :: p in t.addrs && Covers(p, r.gateway) ==> request == Some((t.addrs[p].gw, r.gateway)))
    && ((forall p :: p in t.addrs ==> !Covers(p, r.gateway)) ==> request == None)
  }

  /** A packet joins the list, last, if and only if it holds fewer than fifty and there is somebody to ask. */
  lemma ArriveSuspends(s: State, inPort: nat, dst: Ip)
    requires Enabled(s, Arrive(inPort, dst))
    ensures var s' := Step(s, Arrive(inPort, dst)); var asked := RequestFor(s.t, dst);
      if |s.buffer| < 50 && asked.Some? then
        var p := Packet(|s.log|, inPort, dst, asked.value.1);
        s' == s.(buffer := s.buffer + [p], timers := s.timers + {p.id}, log := s.log + [p])
      else s' == s
  {
  }

  // ---------------------------------------------------------------- the order of forwarding

  /** Somewhere in the trail all of these packets were forwarded, one right after the other, in this order. */
  ghost predicate ForwardedInOrder(rs: seq<Resolution>, list: seq<Packet>) {
    exists n: nat :: ForwardedAt(rs, n, list)
  }

  predicate ForwardedAt(rs: seq<Resolution>, n: nat, list: seq<Packet>) {
    n + |list| <= |rs| && forall i :: 0 <= i < |list| ==> rs[n + i] == Resolution(list[i], Forwarded)
  }

  /** A reply's handler works through the list in order, and then forwards it. */
  ghost predicate WorksThrough(s: State, j: nat, list: seq<Packet>) {
    && j < |s.handlers| && s.handlers[j].kind.Reply?
    && (!s.handlers[j].phase.Done? ==> s.handlers[j].taken + s.handlers[j].todo == list)
    && (s.handlers[j].phase.Done? ==> ForwardedInOrder(s.resolved, list))
  }

  lemma ForwardedStays(rs: seq<Resolution>, more: seq<Resolution>, list: seq<Packet>)
    requires ForwardedInOrder(rs, list)
    ensures ForwardedInOrder(rs + more, list)
  {
    var n: nat :| ForwardedAt(rs, n, list);
    assert ForwardedAt(rs + more, n, list);
  }

  lemma TurnWorksThrough(s: State, j: nat, list: seq<Packet>)
    requires WorksThrough(s, j, list) && !s.handlers[j].phase.Done?
    ensures WorksThrough(Turn(s, j), j, list)
  {
    var h := s.handlers[j];
    if h.todo == [] {
      assert h.taken + [] == h.taken;
      assert ForwardedAt(s.resolved + Resolve(list, Forwarded), |s.resolved|, list);
    } else if h.todo[0] in s.buffer {
      assert h.todo == [h.todo[0]] + h.todo[1..];
      assert (h.taken + [h.todo[0]]) + h.todo[1..] == h.taken + ([h.todo[0]] + h.todo[1..]);
    }
  }

  lemma OthersWorkThrough(s: State, s': State, j: nat, more: seq<Resolution>, list: seq<Packet>)
    requires WorksThrough(s, j, list) && j < |s'.handlers| && s'.handlers[j] == s.handlers[j]
    requires s'.resolved == s.resolved + more
    ensures WorksThrough(s', j, list)
  {
    if s.handlers[j].phase.Done? {
      ForwardedStays(s.resolved, more, list);
    }
  }

  lemma ResolvedGrows(s: State, e: Event) returns (more: seq<Resolution>)
    requires Enabled(s, e)
    ensures Step(s, e).resolved == s.resolved + more
  {
    assert s.resolved + [] == s.resolved;
    more := Step(s, e).resolved[|s.resolved|..];
  }

  lemma StepWorksThrough(s: State, e: Event, j: nat, list: seq<Packet>)
    requires Enabled(s, e) && WorksThrough(s, j, list)
    ensures WorksThrough(Step(s, e), j, list)
  {
    if e == Resume(j) {
      TurnWorksThrough(s, j, list);
    } else {
      var more := ResolvedGrows(s, e);
      OthersWorkThrough(s, Step(s, e), j, more, list);
    }
  }

  /** The packets that wait for this host, in the order in which they came. */
  predicate IsListFor(buffer: seq<Packet>, ip: Ip, list: seq<Packet>)
  {
    if buffer == [] then list == []
    else if buffer[0].dst == ip then list != [] && list[0] == buffer[0] && IsListFor(buffer[1..], ip, list[1..])
    else IsListFor(buffer[1..], ip, list)
  }

  lemma ListCons(p: Packet, back: seq<Packet>, ip: Ip, list: seq<Packet>)
    requires IsListFor(back, ip, list)
    ensures IsListFor([p] + back, ip, (if p.dst == ip then [p] else []) + list)
  {
    assert ([p] + back)[1..] == back && [] + list == list && ([p] + list)[1..] == list;
  }

  lemma {:induction false} KeepIsList(front: seq<Packet>, back: seq<Packet>, ip: Ip, list: seq<Packet>)
    requires IsListFor(back, ip, list)
    ensures IsListFor(front + back, ip, Keep(front, ToHost(ip), true) + list)
    decreases |front|
  {
    if front == [] {
      assert front + back == back && [] + list == list;
    } else {
      var n := |front| - 1;
      var last, kept := front[n], Keep(front[..n], ToHost(ip), true);
      var more := if last.dst == ip then [last] else [];
      ListCons(last, back, ip, list);
      KeepIsList(front[..n], [last] + back, ip, more + list);
      assert front[..n] + ([last] + back) == front + back;
      assert kept + (more + list) == (kept + more) + list;
    }
  }

  lemma NewWorksThrough(s: State, ip: Ip)
    requires Enabled(s, ArpReply(ip)) && |Step(s, ArpReply(ip)).handlers| > |s.handlers|
    ensures var list := Keep(s.buffer, ToHost(ip), true);
      WorksThrough(Step(s, ArpReply(ip)), |s.handlers|, list) && IsListFor(s.buffer, ip, list)
  {
    var list := Keep(s.buffer, ToHost(ip), true);
    var s' := WithHandler(s, Reply(ip), list);
    assert [] + list == list;
    assert WorksThrough(s', |s.handlers|, list);
    TurnWorksThrough(s', |s.handlers|, list);
    KeepIsList(s.buffer, [], ip, []);
    assert s.buffer + [] == s.buffer && list + [] == list;
  }

  /** The handler was started by the ARP reply at this point of the run, for the packets in `list`. */
  ghost predicate StartedFor(run: seq<Event>, k: nat, ip: Ip, list: seq<Packet>) {
    && k < |run| && run[k] == ArpReply(ip)
    && IsRun(run[..k]) && IsListFor(After(run[..k]).buffer, ip, list)
  }

  /**
   An ARP reply's handler forwards what waited for its host when the reply came, all of it and in the
   order in which it came, or fails; until then it has taken out the first packets of that list.
   */
  lemma {:induction false} RepliesForwardInOrder(run: seq<Event>, j: nat)
    requires IsRun(run) && j < |After(run).handlers| && After(run).handlers[j].kind.Reply?
    ensures WorksForReply(run, j)
  {
    var front, e := run[..|run| - 1], run[|run| - 1];
    var s := After(front);
    HandlersStay(s, e);
    if j < |s.handlers| {
      RepliesForwardInOrder(front, j);
      StillWorks(run, j);
    } else {
      NewHandlerStarted(s, e, j);
      NewWorks(run, j);
    }
  }

  ghost predicate WorksForReply(run: seq<Event>, j: nat)
    requires IsRun(run) && j < |After(run).handlers| && After(run).handlers[j].kind.Reply?
  {
    exists k: nat, list ::
      StartedFor(run, k, After(run).handlers[j].kind.ip, list) && WorksThrough(After(run), j, list)
  }

  lemma StillWorks(run: seq<Event>, j: nat)
    requires IsRun(run) && run != [] && j < |After(run[..|run| - 1]).handlers| <= |After(run).handlers|
    requires After(run).handlers[j].kind == After(run[..|run| - 1]).handlers[j].kind
    requires After(run).handlers[j].kind.Reply? && WorksForReply(run[..|run| - 1], j)
    ensures WorksForReply(run, j)
  {
    var front, e := run[..|run| - 1], run[|run| - 1];
    var s := After(front);
    var k: nat, list :| StartedFor(front, k, s.handlers[j].kind.ip, list) && WorksThrough(s, j, list);
    StartStays(run, k, s.handlers[j].kind.ip, list);
    StepWorksThrough(s, e, j, list);
    assert WorksThrough(After(run), j, list);
  }

  lemma StartStays(run: seq<Event>, k: nat, ip: Ip, list: seq<Packet>)
    requires run != [] && StartedFor(run[..|run| - 1], k, ip, list)
    ensures StartedFor(run, k, ip, list)
  {
    assert run[..|run| - 1][..k] == run[..k];
  }

  lemma NewWorks(run: seq<Event>, j: nat)
    requires IsRun(run) && run != [] && j < |After(run).handlers| && After(run).handlers[j].kind.Reply?
    requires j >= |After(run[..|run| - 1]).handlers|
    requires run[|run| - 1] == ArpReply(After(run).handlers[j].kind.ip)
    ensures WorksForReply(run, j)
  {
    var n := |run| - 1;
    var s := After(run[..n]);
    NewWorksThrough(s, run[n].ip);
    assert j == |s.handlers|;
    assert StartedFor(run, n, run[n].ip, Keep(s.buffer, ToHost(run[n].ip), true));
  }

  // ---------------------------------------------------------------- the list as the code keeps it

  /** The list and the frames of the handlers that pause; `router` holds the tables. */
  class SuspendPacketList {
    const router: R.VlanRouter
    var items: seq<Packet>
    var threads: set<nat>
    var handlers: seq<Handler>
    // What left the list: packet-outs, ICMP errors, and silent drops.
    var resolved: seq<Resolution>
    var log: seq<Packet>

    ghost function Value(): State
      reads this, router, router.addressData, router.routingTbl
    {
      State(router.T(), items, threads, resolved, handlers, log)
    }

    constructor (router: R.VlanRouter)
      ensures this.router == router && Value() == Init().(t := router.T())
    {
      this.router := router;
      items, threads, handlers, resolved, log := [], {}, [], [], [];
    }

    /** `_packetin_to_node`, with `add`; returns the ARP request it floods. */
    method PacketInToNode(inPort: nat, dst: Ip) returns (request: Option<(Ip, Ip)>)
      requires Inv(Value()) && Valid(router.T()) && NoReplyRuns(Value())
      modifies this
      ensures Value() == Step(old(Value()), Arrive(inPort, dst))
      ensures request == if |old(items)| >= MAX_SUSPENDPACKETS then None else RequestFor(router.T(), dst)
    {
      ArriveSuspends(Value(), inPort, dst);
      if |items| >= MAX_SUSPENDPACKETS {
        return None;
      }
      request := None;
      var address := router.addressData.GetByIp(dst);
      if address.Some? {
        request := Some((address.value.gw, dst));
      } else {
        var route := router.routingTbl.GetByDst(dst);
        if route.Some? {
          var gwAddress := router.addressData.GetByIp(route.value.gateway);
          if gwAddress.Some? {
            request := Some((gwAddress.value.gw, route.value.gateway));
          }
        }
      }
      assert request == RequestFor(router.T(), dst);
      if request.Some? {
        var pkt := Packet(|log|, inPort, dst, request.value.1);
        items, threads, log := items + [pkt], threads + {pkt.id}, log + [pkt];
      }
    }

    /** `get_data` */
    method GetData(dst: Ip) returns (pkts: seq<Packet>)
      ensures pkts == Keep(items, ToHost(dst), true)
    {
      pkts := [];
      for i := 0 to |items|
        invariant pkts == Keep(items[..i], ToHost(dst), true)
      {
        if items[i].dst == dst {
          pkts := pkts + [items[i]];
        }
        assert items[..i + 1][..i] == items[..i];
      }
      assert items[..|items|] == items;
    }

    /** One turn of the loop of `delete`: `remove`, or its ValueError, then the end of the wait thread. */
    method DeletePacket(pkt: Packet) returns (found: bool)
      requires Distinct(items)
      modifies this`items, this`threads
      ensures found <==> pkt in old(items)
      ensures items == if found then Keep(old(items), Is(pkt.id), false) else old(items)
      ensures threads == if found then old(threads) - {pkt.id} else old(threads)
    {
      var i := 0;
      while i < |items| && items[i] != pkt
        invariant i <= |items| && pkt !in items[..i]
      {
        i := i + 1;
      }
      found := i < |items|;
      if found {
        RemoveAtIsKeep(items, i);
        items := items[..i] + items[i + 1..];
        threads := threads - {pkt.id};
      } else {
        assert items[..i] == items;
      }
    }

    /**
     From one pause of a handler to the next: it removes its next packet, or ends. An ARP reply's
     handler that has removed all it selected forwards them.
     */
    method Continue(i: nat)
      requires Core(Value()) && i < |handlers|
      modifies this
      ensures Value() == Turn(old(Value()), i)
    {
      var h := handlers[i];
      if h.todo == [] {
        SendAll(h.taken, Forwarded);
        handlers := handlers[i := h.(taken := [], phase := Done)];
        return;
      }
      var pkt := h.todo[0];
      BufferDistinct(Value());
      var found := DeletePacket(pkt);
      if !found {
        handlers := handlers[i := h.(phase := Failed)];
      } else if h.kind.Reply? {
        handlers := handlers[i := h.(todo := h.todo[1..], taken := h.taken + [pkt])];
      } else {
        SendAll([pkt], AddressDeleted);
        handlers := handlers[i := h.(todo := h.todo[1..])];
      }
    }

    /** The ARP-reply branch of `_packetin_arp`, up to its first pause. */
    method ArpReply(src: Ip)
      requires Inv(Value()) && Valid(router.T()) && NoReplyRuns(Value())
      modifies this
      ensures Value() == Step(old(Value()), Event.ArpReply(src))
    {
      var srcAddr := router.addressData.GetByIp(src);
      if srcAddr.None? {
        return;
      }
      var list := GetData(src);
      if list != [] {
        ChosenOk(Value(), Reply(src));
        handlers := handlers + [Handler(Reply(src), list, [], Running)];
        Continue(|handlers| - 1);
      }
    }

    /** `delete(del_addr=...)`, up to its first pause. */
    method DeleteAddress(net: Prefix)
      requires Inv(Value())
      modifies this
      ensures Value() == Step(old(Value()), AddressGone(net))
    {
      var list := [];
      for i := 0 to |items|
        invariant list == Keep(items[..i], InNet(net), true)
      {
        if Covers(net, items[i].dst) {
          list := list + [items[i]];
        }
        assert items[..i + 1][..i] == items[..i];
      }
      assert items[..|items|] == items;
      if list != [] {
        ChosenOk(Value(), Deletion(net));
        handlers := handlers + [Handler(Deletion(net), list, [], Running)];
        Continue(|handlers| - 1);
      }
    }

    /** The rest of `wait_arp_reply_timer` once its sleep is over; a thread that was ended never gets here. */
    method WaitArpReplyTimer(pkt: Packet)
      requires Inv(Value()) && Known(log, pkt) && pkt.id in threads
      modifies this
      ensures Value() == Step(old(Value()), TimerFires(pkt.id))
    {
      var waiting := TimerPacket(Value(), pkt.id);
      assert Known(log, waiting);
      BufferDistinct(Value());
      if pkt in items {
        SendAll([pkt], HostUnreachable);
        var found := DeletePacket(pkt);
      }
    }

    method SendAll(list: seq<Packet>, o: Outcome)
      modifies this`resolved
      ensures resolved == old(resolved) + Resolve(list, o)
    {
      for i := 0 to |list|
        invariant resolved == old(resolved) + Resolve(list[..i], o)
      {
        resolved := resolved + [Resolution(list[i], o)];
      }
      assert list[..|list|] == list;
    }
  }
}
