/**
 The router's tables and its suspended packets together: a deletion of addresses pauses exactly while
 it ends the threads of the packets suspended for an address's network, and fails exactly when one of
 these packets leaves the list meanwhile.
 */
module RouterPackets {
  import opened Wrappers
  import opened Cidr
  import opened RouterTables
  import opened RouterSteps
  import opened RouterEvents
  import opened RouterPause
  import opened RouterRuns
  import P = Suspend
  import X = RouterExact

  /**
   The steps of the tables, the events of the packet list, and for each deletion that pauses over
   suspended packets the packet handler that removes them.
   */
  datatype Whole = Whole(steps: seq<Step>, packets: seq<P.Event>, frames: map<nat, nat>)

  /**
   A step of the tables other than the end of a pause; an event of the packet list; the end of a
   deletion's pause, whose outcome the packet handler decides.
   */
  datatype Move = Go(s: Step) | Packet(e: P.Event) | EndPause(rid: nat)

  ghost predicate Runs(vid: nat, w: Whole) {
    IsRun(vid, w.steps) && P.IsRun(w.packets)
  }

  /** Both sides see the same tables, and every frame belongs to a deletion that pauses. */
  ghost predicate WholeOk(vid: nat, w: Whole) {
    && Runs(vid, w)
    && P.After(w.packets).t == After(vid, w.steps).t
    && FramesOk(After(vid, w.steps).active, P.After(w.packets).handlers, w.frames)
  }

  predicate FramesOk(active: map<nat, Deletion>, handlers: seq<P.Handler>, frames: map<nat, nat>) {
    forall rid :: rid in frames ==>
      && rid in active && active[rid].at.Some?
      && frames[rid] < |handlers| && handlers[frames[rid]].kind.Deletion?
  }

  /** Every deletion that has stopped at an address waits there for the threads of suspended packets. */
  predicate AllPause(active: map<nat, Deletion>, handlers: seq<P.Handler>, frames: map<nat, nat>) {
    forall rid :: rid in active && active[rid].at.Some? ==>
      rid in frames && frames[rid] < |handlers| && handlers[frames[rid]].phase.Running?
  }

  predicate IsPacketIn(s: Step) {
    s.Handle? && s.e.Arp?
  }

  ghost predicate CanMove(vid: nat, w: Whole, m: Move)
    requires WholeOk(vid, w)
  {
    var c, p := After(vid, w.steps), P.After(w.packets);
    match m
    case Go(s) =>
      && AllPause(c.active, p.handlers, w.frames)
      && Enabled(c, vid, s) && !s.Forget? && !s.Abort?
      && (IsPacketIn(s) ==> P.NoReplyRuns(p))
    case Packet(e) =>
      && AllPause(c.active, p.handlers, w.frames) && Idle(c)
      && (e.Arrive? || e.ArpReply? || e.Resume? || e.TimerFires?) && P.Enabled(p, e)
    case EndPause(rid) =>
      rid in c.active && Idle(c) && (rid in w.frames ==> !p.handlers[w.frames[rid]].phase.Running?)
  }

  ghost function NetOfId(t: Tables, id: nat): Prefix
    requires HasId(t.addrs, id)
  {
    var p :| p in t.addrs && t.addrs[p].id == id;
    p
  }

  /** The suspended packets a deletion has to remove before its address can go. */
  ghost function InTheWay(p: P.State, t: Tables, id: nat): seq<P.Packet>
    requires HasId(t.addrs, id)
  {
    P.Chosen(p, P.Deletion(NetOfId(t, id)))
  }

  /** How a pause over suspended packets ends: with the address removed, or with a ValueError. */
  ghost function EndOf(vid: nat, w: Whole, rid: nat): Step
    requires WholeOk(vid, w)
  {
    if rid in w.frames && P.After(w.packets).handlers[w.frames[rid]].phase.Failed? then Abort(rid) else Forget(rid)
  }

  ghost function AfterMove(vid: nat, w: Whole, m: Move): Whole
    requires WholeOk(vid, w) && CanMove(vid, w, m)
  {
    var c := After(vid, w.steps);
    match m
    case Packet(e) => w.(packets := w.packets + [e])
    case EndPause(rid) =>
      var s := EndOf(vid, w, rid);
      Whole(w.steps + [s], w.packets + [P.Configure(Advance(c, vid, s).t)], w.frames - {rid})
    case Go(s) =>
      var c' := Advance(c, vid, s);
      var told := w.packets + [P.Configure(c'.t)];
      if StopsFor(vid, w, s) then
        Whole(w.steps + [s], told + [P.AddressGone(NetOfId(c'.t, c'.active[s.rid].at.value))],
              w.frames[s.rid := |P.After(w.packets).handlers|])
      else
        Whole(w.steps + [s], told, w.frames)
  }

  /** The step strikes an address that has suspended packets. */
  ghost predicate StopsFor(vid: nat, w: Whole, s: Step)
    requires WholeOk(vid, w) && CanMove(vid, w, Go(s))
  {
    var c := After(vid, w.steps);
    && s.Strike?
    && HasId(c.t.addrs, c.active[s.rid].rest[0])
    && InTheWay(P.After(w.packets), Advance(c, vid, s).t, c.active[s.rid].rest[0]) != []
  }

  // ---------------------------------------------------------------- the two sides stay together

  lemma ExtendSteps(vid: nat, steps: seq<Step>, s: Step)
    requires IsRun(vid, steps) && Enabled(After(vid, steps), vid, s)
    ensures IsRun(vid, steps + [s]) && After(vid, steps + [s]) == Advance(After(vid, steps), vid, s)
  {
    assert (steps + [s])[..|steps|] == steps;
  }

  lemma PacketMoveOk(vid: nat, w: Whole, e: P.Event)
    requires WholeOk(vid, w) && CanMove(vid, w, Packet(e))
    ensures WholeOk(vid, AfterMove(vid, w, Packet(e)))
  {
    var p := P.After(w.packets);
    P.Extend(w.packets, e, p);
    P.HandlersStay(p, e);
    PacketEventKeepsTables(p, e);
  }

  lemma PacketEventKeepsTables(p: P.State, e: P.Event)
    requires P.Enabled(p, e) && !e.Configure?
    ensures P.Step(p, e).t == p.t
  {
  }

  lemma EndPauseOk(vid: nat, w: Whole, rid: nat)
    requires WholeOk(vid, w) && CanMove(vid, w, EndPause(rid))
    ensures WholeOk(vid, AfterMove(vid, w, EndPause(rid)))
  {
    var c, p, s := After(vid, w.steps), P.After(w.packets), EndOf(vid, w, rid);
    ExtendSteps(vid, w.steps, s);
    P.Extend(w.packets, P.Configure(Advance(c, vid, s).t), p);
  }

  lemma GoOk(vid: nat, w: Whole, s: Step)
    requires WholeOk(vid, w) && CanMove(vid, w, Go(s))
    ensures WholeOk(vid, AfterMove(vid, w, Go(s)))
  {
    if StopsFor(vid, w, s) {
      StopOk(vid, w, s);
    } else {
      PassOk(vid, w, s);
    }
  }

  /** A step that meets no suspended packets. */
  lemma PassOk(vid: nat, w: Whole, s: Step)
    requires WholeOk(vid, w) && CanMove(vid, w, Go(s)) && !StopsFor(vid, w, s)
    ensures WholeOk(vid, AfterMove(vid, w, Go(s)))
  {
    var c, p := After(vid, w.steps), P.After(w.packets);
    ToldOk(vid, w, s);
    NumbersApart(vid, w.steps);
    FramesStay(c, vid, s, p.handlers, w.frames);
  }

  /** After a step the packet list's side is told of the new tables. */
  lemma ToldOk(vid: nat, w: Whole, s: Step)
    requires Runs(vid, w) && Enabled(After(vid, w.steps), vid, s)
    ensures var c', p := Advance(After(vid, w.steps), vid, s), P.After(w.packets);
      && IsRun(vid, w.steps + [s]) && After(vid, w.steps + [s]) == c'
      && P.IsRun(w.packets + [P.Configure(c'.t)]) && P.After(w.packets + [P.Configure(c'.t)]) == p.(t := c'.t)
  {
    ExtendSteps(vid, w.steps, s);
    P.Extend(w.packets, P.Configure(Advance(After(vid, w.steps), vid, s).t), P.After(w.packets));
  }

  lemma FramesStay(c: Config, vid: nat, s: Step, handlers: seq<P.Handler>, frames: map<nat, nat>)
    requires Enabled(c, vid, s) && !s.Forget? && !s.Abort? && c.pending.Keys !! c.active.Keys
    requires FramesOk(c.active, handlers, frames)
    ensures FramesOk(Advance(c, vid, s).active, handlers, frames)
    ensures s.Strike? ==> s.rid !in frames
  {
    StoppedStay(c, vid, s);
  }

  /** Deletions that stop at an address stay there while others go on. */
  lemma StoppedStay(c: Config, vid: nat, s: Step)
    requires Enabled(c, vid, s) && !s.Forget? && !s.Abort? && c.pending.Keys !! c.active.Keys
    ensures var active' := Advance(c, vid, s).active;
      forall rid :: rid in c.active && c.active[rid].at.Some? ==> rid in active' && active'[rid] == c.active[rid]
  {
  }

  lemma StopOk(vid: nat, w: Whole, s: Step)
    requires WholeOk(vid, w) && CanMove(vid, w, Go(s)) && StopsFor(vid, w, s)
    ensures WholeOk(vid, AfterMove(vid, w, Go(s)))
  {
    var c, p := After(vid, w.steps), P.After(w.packets);
    var c' := Advance(c, vid, s);
    ToldOk(vid, w, s);
    NumbersApart(vid, w.steps);
    FramesStay(c, vid, s, p.handlers, w.frames);
    var net, told := NetOfId(c'.t, c'.active[s.rid].at.value), w.packets + [P.Configure(c'.t)];
    P.Extend(told, P.AddressGone(net), p.(t := c'.t));
    DeletionBegins(p.(t := c'.t), net);
    NewFrame(c'.active, p.handlers, P.After(told + [P.AddressGone(net)]).handlers, w.frames, s.rid);
  }

  lemma NewFrame(active: map<nat, Deletion>, handlers: seq<P.Handler>, more: seq<P.Handler>, frames: map<nat, nat>,
                 rid: nat)
    requires FramesOk(active, handlers, frames) && rid in active && active[rid].at.Some?
    requires |more| == |handlers| + 1 && more[..|handlers|] == handlers && more[|handlers|].kind.Deletion?
    ensures FramesOk(active, more, frames[rid := |handlers|])
  {
    forall r | r in frames
      ensures more[frames[r]] == handlers[frames[r]]
    {
      assert more[..|handlers|][frames[r]] == more[frames[r]];
    }
  }

  lemma DeletionBegins(p: P.State, net: Prefix)
    requires P.Chosen(p, P.Deletion(net)) != []
    ensures var p' := P.Step(p, P.AddressGone(net));
      && p'.t == p.t && |p'.handlers| == |p.handlers| + 1
      && p'.handlers[..|p.handlers|] == p.handlers
      && p'.handlers[|p.handlers|].kind == P.Deletion(net)
  {
  }

  lemma MoveOk(vid: nat, w: Whole, m: Move)
    requires WholeOk(vid, w) && CanMove(vid, w, m)
    ensures WholeOk(vid, AfterMove(vid, w, m))
  {
    match m
    case Go(s) => GoOk(vid, w, s);
    case Packet(e) => PacketMoveOk(vid, w, e);
    case EndPause(rid) => EndPauseOk(vid, w, rid);
  }

  // ---------------------------------------------------------------- all runs of the two sides

  const BEGIN := Whole([], [], map[])

  ghost predicate IsWholeRun(vid: nat, moves: seq<Move>)
    decreases |moves|, 0
  {
    moves == [] ||
    (IsWholeRun(vid, moves[..|moves| - 1])
     && CanMove(vid, AfterMoves(vid, moves[..|moves| - 1]), moves[|moves| - 1]))
  }

  ghost function AfterMoves(vid: nat, moves: seq<Move>): (w: Whole)
    requires IsWholeRun(vid, moves)
    ensures WholeOk(vid, w)
    decreases |moves|, 1
  {
    if moves == [] then BEGIN
    else
      var w := AfterMoves(vid, moves[..|moves| - 1]);
      MoveOk(vid, w, moves[|moves| - 1]);
      AfterMove(vid, w, moves[|moves| - 1])
  }

  /** A timer or another handler took out a packet the deletion had still to remove. */
  ghost predicate PacketGone(vid: nat, w: Whole, rid: nat)
    requires WholeOk(vid, w)
  {
    rid in w.frames && P.Overtaken(w.packets, w.frames[rid])
  }

  /**
   What a move must not do: act on an outdated default entry; remove an address that a newer route
   needs or whose hosts, learned in the pause, nobody will remove; or leave a registered address and
   listed entries behind because a suspended packet was gone.
   */
  ghost predicate SafeMove(vid: nat, w: Whole, m: Move)
    requires WholeOk(vid, w)
  {
    var c := After(vid, w.steps);
    match m
    case Packet(_) => true
    case Go(s) => SafeForSwitch(c, vid, s)
    case EndPause(rid) =>
      if PacketGone(vid, w, rid) then SafeForSwitch(c, vid, Abort(rid))
      else SafeForGateways(c, Forget(rid)) && SafeForSwitch(c, vid, Forget(rid))
  }

  ghost predicate AllMovesSafe(vid: nat, moves: seq<Move>)
    requires IsWholeRun(vid, moves)
  {
    moves != [] ==>
      AllMovesSafe(vid, moves[..|moves| - 1])
      && SafeMove(vid, AfterMoves(vid, moves[..|moves| - 1]), moves[|moves| - 1])
  }

  /** A pause ends with a ValueError exactly when one of its packets was taken out meanwhile. */
  lemma PauseEndsExactly(vid: nat, w: Whole, rid: nat)
    requires WholeOk(vid, w) && CanMove(vid, w, EndPause(rid))
    ensures EndOf(vid, w, rid) == if PacketGone(vid, w, rid) then Abort(rid) else Forget(rid)
  {
    if rid in w.frames {
      P.HandlerEndsExactly(w.packets, w.frames[rid]);
    }
  }

  lemma SafeWithStep(vid: nat, steps: seq<Step>, s: Step)
    requires IsRun(vid, steps) && Enabled(After(vid, steps), vid, s)
    ensures IsRun(vid, steps + [s])
    ensures AlwaysSafe(vid, steps + [s]) <==>
      AlwaysSafe(vid, steps) && SafeForGateways(After(vid, steps), s) && SafeForSwitch(After(vid, steps), vid, s)
  {
    assert (steps + [s])[..|steps|] == steps;
  }

  lemma MoveSafe(vid: nat, w: Whole, m: Move)
    requires WholeOk(vid, w) && CanMove(vid, w, m)
    ensures WholeOk(vid, AfterMove(vid, w, m))
    ensures AlwaysSafe(vid, AfterMove(vid, w, m).steps) <==> AlwaysSafe(vid, w.steps) && SafeMove(vid, w, m)
  {
    MoveOk(vid, w, m);
    match m
    case Go(s) => SafeWithStep(vid, w.steps, s);
    case Packet(_) =>
    case EndPause(rid) =>
      PauseEndsExactly(vid, w, rid);
      SafeWithStep(vid, w.steps, EndOf(vid, w, rid));
  }

  /**
   In every state of a run of tables, switch and suspended packets the tables are valid and the switch
   holds what they call for, up to what running deletions have still to do, if and only if every move
   is safe.
   */
  lemma {:induction false} WholeRunAgrees(vid: nat, moves: seq<Move>)
    requires IsWholeRun(vid, moves)
    ensures AlwaysConsistent(vid, AfterMoves(vid, moves).steps) <==> AllMovesSafe(vid, moves)
  {
    ReachableAgrees(vid, AfterMoves(vid, moves).steps);
    if moves != [] {
      var front, last := moves[..|moves| - 1], moves[|moves| - 1];
      WholeRunAgrees(vid, front);
      ReachableAgrees(vid, AfterMoves(vid, front).steps);
      MoveSafe(vid, AfterMoves(vid, front), last);
    }
  }

  /** Whenever no deletion is under way, such a run has every IPv4 packet treated as the tables prescribe. */
  lemma WholeRunForwards(vid: nat, moves: seq<Move>, src: Ip, dst: Ip)
    requires IsWholeRun(vid, moves) && AllMovesSafe(vid, moves)
    requires Settled(After(vid, AfterMoves(vid, moves).steps))
    ensures ForwardsAsPrescribed(After(vid, AfterMoves(vid, moves).steps), src, dst)
  {
    var steps := AfterMoves(vid, moves).steps;
    WholeRunAgrees(vid, moves);
    ReachableAgrees(vid, steps);
    EveryRunForwardsAsPrescribed(vid, steps, src, dst);
  }

  // ---------------------------------------------------------------- runs that break the conditions

  ghost predicate Reached(vid: nat, w: Whole) {
    exists moves :: IsWholeRun(vid, moves) && AfterMoves(vid, moves) == w
  }

  /** A reachable state of the two sides. */
  ghost predicate Sides(vid: nat, w: Whole, c: Config, p: P.State, frames: map<nat, nat>) {
    && Reached(vid, w)
    && WholeOk(vid, w)
    && After(vid, w.steps) == c && P.After(w.packets) == p && w.frames == frames
  }

  lemma ReachedNext(vid: nat, w: Whole, m: Move)
    requires Reached(vid, w) && WholeOk(vid, w) && CanMove(vid, w, m)
    ensures Reached(vid, AfterMove(vid, w, m)) && WholeOk(vid, AfterMove(vid, w, m))
  {
    var moves :| IsWholeRun(vid, moves) && AfterMoves(vid, moves) == w;
    MovesExtended(vid, moves, m);
  }

  lemma MovesExtended(vid: nat, moves: seq<Move>, m: Move)
    requires IsWholeRun(vid, moves) && CanMove(vid, AfterMoves(vid, moves), m)
    ensures IsWholeRun(vid, moves + [m])
    ensures AfterMoves(vid, moves + [m]) == AfterMove(vid, AfterMoves(vid, moves), m)
  {
    assert (moves + [m])[..|moves|] == moves;
    assert (moves + [m])[|moves|] == m;
  }

  /** A safe step of the tables that strikes nothing. */
  lemma GoOn(vid: nat, w: Whole, c: Config, p: P.State, frames: map<nat, nat>, s: Step) returns (w': Whole)
    requires Sides(vid, w, c, p, frames) && Enabled(c, vid, s) && !s.Strike? && !s.Forget? && !s.Abort?
    requires AllPause(c.active, p.handlers, frames) && (IsPacketIn(s) ==> P.NoReplyRuns(p))
    ensures Sides(vid, w', Advance(c, vid, s), p.(t := Advance(c, vid, s).t), frames)
  {
    ReachedNext(vid, w, Go(s));
    ToldOk(vid, w, s);
    w' := AfterMove(vid, w, Go(s));
  }

  lemma PacketOn(vid: nat, w: Whole, c: Config, p: P.State, frames: map<nat, nat>, e: P.Event) returns (w': Whole)
    requires Sides(vid, w, c, p, frames) && CanMove(vid, w, Packet(e))
    ensures Sides(vid, w', c, P.Step(p, e), frames)
  {
    ReachedNext(vid, w, Packet(e));
    P.Extend(w.packets, e, p);
    w' := AfterMove(vid, w, Packet(e));
  }

  /** A strike at a registered address that has suspended packets. */
  lemma StopOn(vid: nat, w: Whole, c: Config, p: P.State, frames: map<nat, nat>, rid: nat) returns (w': Whole)
    requires Sides(vid, w, c, p, frames) && Enabled(c, vid, Strike(rid)) && AllPause(c.active, p.handlers, frames)
    requires var c', id := Advance(c, vid, Strike(rid)), c.active[rid].rest[0];
      HasId(c.t.addrs, id) && P.Chosen(p, P.Deletion(NetOfId(c'.t, id))) != []
    ensures var c' := Advance(c, vid, Strike(rid)); var net := NetOfId(c'.t, c'.active[rid].at.value);
      Sides(vid, w', c', P.Step(p.(t := c'.t), P.AddressGone(net)), frames[rid := |p.handlers|])
  {
    var c', s := Advance(c, vid, Strike(rid)), Strike(rid);
    assert StopsFor(vid, w, s);
    ReachedNext(vid, w, Go(s));
    ToldOk(vid, w, s);
    P.Extend(w.packets + [P.Configure(c'.t)], P.AddressGone(NetOfId(c'.t, c'.active[rid].at.value)), p.(t := c'.t));
    w' := AfterMove(vid, w, Go(s));
  }

  lemma EndOn(vid: nat, w: Whole, c: Config, p: P.State, frames: map<nat, nat>, rid: nat) returns (w': Whole)
    requires Sides(vid, w, c, p, frames) && CanMove(vid, w, EndPause(rid))
    ensures var s := EndOf(vid, w, rid);
      Enabled(c, vid, s) && Sides(vid, w', Advance(c, vid, s), p.(t := Advance(c, vid, s).t), frames - {rid})
  {
    var s := EndOf(vid, w, rid);
    ReachedNext(vid, w, EndPause(rid));
    ToldOk(vid, w, s);
    w' := AfterMove(vid, w, EndPause(rid));
  }

  /** The deletion of address 1 pauses at it, with nothing else on its list. */
  predicate PausesAtOne(c: Config, gw: Ip, len: PrefixLen) {
    && c.t == X.OneAddress(gw, len)
    && c.pending == map[] && c.strays == map[]
    && 0 in c.active && c.active == map[0 := Deletion(c.active[0].r, Some(1), [])]
  }

  /** The packet handler of that deletion has taken out the first of the packets, and `todo` is left. */
  predicate Removing(p: P.State, net: Prefix, todo: seq<P.Packet>) {
    && p.buffer == todo
    && p.handlers == [P.Handler(P.Deletion(net), todo, [], P.Running)]
    && (forall q :: q in todo ==> q.id in p.timers)
  }

  // Suspended packets: two wait, the deletion takes out the first and pauses.

  lemma FirstDropped(t: Tables, net: Prefix, q0: P.Packet, q1: P.Packet)
    requires Covers(net, q0.dst) && Covers(net, q1.dst) && q0.id == 0 && q1.id == 1
    ensures P.Chosen(P.BothWaiting(t, q0, q1), P.Deletion(net)) != []
    ensures Removing(P.Step(P.BothWaiting(t, q0, q1), P.AddressGone(net)), net, [q1])
  {
    var p, both := P.BothWaiting(t, q0, q1), [q0, q1];
    P.KeepPair(q0, q1, P.InNet(net), true);
    P.KeepPair(q0, q1, P.Is(0), false);
    assert P.Chosen(p, P.Deletion(net)) == both;
    var h := P.Handler(P.Deletion(net), both, [], P.Running);
    assert P.WithHandler(p, P.Deletion(net), both).handlers == [h];
    assert both[1..] == [q1];
  }

  lemma StillPauses(c: Config, p: P.State, net: Prefix, q: P.Packet)
    requires 0 in c.active && c.active == map[0 := Deletion(c.active[0].r, Some(1), [])] && Removing(p, net, [q])
    ensures Idle(c) && AllPause(c.active, p.handlers, map[0 := 0])
  {
  }

  lemma TimerThenFailure(p: P.State, net: Prefix, q: P.Packet)
    requires Removing(p, net, [q])
    ensures P.Enabled(p, P.TimerFires(q.id))
    ensures var p1 := P.Step(p, P.TimerFires(q.id));
      p1.handlers == p.handlers && P.Enabled(p1, P.Resume(0)) && |P.Step(p1, P.Resume(0)).handlers| == 1
      && P.Step(p1, P.Resume(0)).handlers[0].phase.Failed?
  {
    assert q in [q];
    P.KeepMember(p.buffer, P.Is(q.id), false, q);
  }

  lemma ResumesToEnd(p: P.State, net: Prefix, q: P.Packet)
    requires Removing(p, net, [q])
    ensures P.Enabled(p, P.Resume(0))
    ensures var p1 := P.Step(p, P.Resume(0));
      P.Enabled(p1, P.Resume(0)) && |P.Step(p1, P.Resume(0)).handlers| == 1
      && P.Step(p1, P.Resume(0)).handlers[0].phase.Done?
  {
    assert q in [q];
  }

  // The tables: a question about address 1, two packets for one of its hosts, the report.

  lemma FirstAddress(vid: nat, gw: Ip, len: PrefixLen) returns (w: Whole)
    ensures var c := X.AfterOneAddress(vid, gw, len);
      Inv(c, vid) && Sides(vid, w, c, P.Init().(t := X.OneAddress(gw, len)), map[])
  {
    var c0, c1 := Start(vid), X.AfterOneAddress(vid, gw, len);
    var add := Handle(SetAddress(gw, len), AddressMods(vid, Address(1, NetOf(gw, len), gw)));
    assert IsWholeRun(vid, []) && AfterMoves(vid, []) == BEGIN;
    assert Sides(vid, BEGIN, c0, P.Init(), map[]);
    FirstAddressStep(vid, gw, len, add);
    StartConsistent(vid);
    HandleStep(c0, vid, add);
    w := GoOn(vid, BEGIN, c0, P.Init(), map[], add);
  }

  lemma FirstAddressStep(vid: nat, gw: Ip, len: PrefixLen, s: Step)
    requires s == Handle(SetAddress(gw, len), AddressMods(vid, Address(1, NetOf(gw, len), gw)))
    ensures Enabled(Start(vid), vid, s) && Advance(Start(vid), vid, s) == X.AfterOneAddress(vid, gw, len)
  {
  }

  /** Address 1 is to be deleted, and the switch may report one of its entries. */
  predicate AsksForOne(vid: nat, c: Config, st: FlowStats) {
    && c.active == map[] && c.strays == map[] && c.pending.Keys == {0}
    && c.pending[0].forAddress && c.pending[0].which == Some(1) && c.pending[0].skip == {}
    && st.cookie == AddressCookie(vid, 1) && st in c.pending[0].seen
  }

  lemma AskStepOne(vid: nat, gw: Ip, len: PrefixLen)
    ensures var c, ask := X.AfterOneAddress(vid, gw, len), Ask(0, true, Some(1));
      && Enabled(c, vid, ask) && Advance(c, vid, ask).t == c.t
      && AsksForOne(vid, Advance(c, vid, ask), FlowStats(LearnKey(vid, NetOf(gw, len)).priority, AddressCookie(vid, 1)))
  {
    var c := X.AfterOneAddress(vid, gw, len);
    X.OneAddressReachable(vid, gw, len);
    X.AddressEntryReported(c, vid, gw, len);
    X.NothingSkipped(c.t, Some(1));
  }

  lemma Asked(vid: nat, gw: Ip, len: PrefixLen) returns (w: Whole, c: Config, st: FlowStats)
    ensures Sides(vid, w, c, P.Init().(t := X.OneAddress(gw, len)), map[])
    ensures Inv(c, vid) && c.t == X.OneAddress(gw, len) && AsksForOne(vid, c, st)
  {
    st := FlowStats(LearnKey(vid, NetOf(gw, len)).priority, AddressCookie(vid, 1));
    w := FirstAddress(vid, gw, len);
    AskStepOne(vid, gw, len);
    var c1, ask := X.AfterOneAddress(vid, gw, len), Ask(0, true, Some(1));
    w := GoOn(vid, w, c1, P.Init().(t := c1.t), map[], ask);
    AskStep(c1, vid, ask);
    c := Advance(c1, vid, ask);
  }

  lemma TwoArrive(vid: nat, w: Whole, c: Config, dst: Ip) returns (w': Whole)
    requires Sides(vid, w, c, P.Init().(t := c.t), map[]) && c.active == map[] && AddressOf(c.t.addrs, dst).Some?
    ensures Sides(vid, w', c, P.BothWaiting(c.t, P.Packet(0, 1, dst, dst), P.Packet(1, 1, dst, dst)), map[])
  {
    var p0 := P.Init().(t := c.t);
    ArrivalSteps(c.t, dst);
    w' := PacketOn(vid, w, c, p0, map[], P.Arrive(1, dst));
    w' := PacketOn(vid, w', c, P.Step(p0, P.Arrive(1, dst)), map[], P.Arrive(1, dst));
  }

  lemma ArrivalSteps(t: Tables, dst: Ip)
    requires AddressOf(t.addrs, dst).Some?
    ensures var p1 := P.Step(P.Init().(t := t), P.Arrive(1, dst));
      && P.Enabled(p1, P.Arrive(1, dst))
      && P.Step(p1, P.Arrive(1, dst)) == P.BothWaiting(t, P.Packet(0, 1, dst, dst), P.Packet(1, 1, dst, dst))
  {
    var q0, q1 := P.Packet(0, 1, dst, dst), P.Packet(1, 1, dst, dst);
    assert P.Step(P.Init().(t := t), P.Arrive(1, dst)) == P.State(t, [q0], {0}, [], [], [q0]);
    assert [q0] + [q1] == [q0, q1] && {0} + {1} == {0, 1};
  }

  /** The report lists one entry of the address. */
  lemma ReportComes(vid: nat, w: Whole, c: Config, p: P.State, st: FlowStats) returns (w': Whole, c': Config)
    requires Sides(vid, w, c, p, map[]) && Inv(c, vid) && AsksForOne(vid, c, st) && p.t == c.t
    ensures Sides(vid, w', c', p, map[]) && Inv(c', vid) && c'.t == c.t && c'.strays == c.strays
    ensures c'.pending == map[] && c'.active == map[0 := Deletion(c.pending[0], None, [1])]
  {
    ReportStep(vid, c, st);
    AddressAnswerStep(c, vid, Answer(0, [st]));
    w' := GoOn(vid, w, c, p, map[], Answer(0, [st]));
    c' := Advance(c, vid, Answer(0, [st]));
  }

  lemma ReportStep(vid: nat, c: Config, st: FlowStats)
    requires AsksForOne(vid, c, st)
    ensures Enabled(c, vid, Answer(0, [st]))
    ensures var c' := Advance(c, vid, Answer(0, [st]));
      && c'.t == c.t && c'.strays == c.strays && c'.pending == map[]
      && c'.active == map[0 := Deletion(c.pending[0], None, [1])]
  {
    X.OneEntryListed(vid, st);
  }

  lemma OnlyNet(gw: Ip, len: PrefixLen)
    ensures HasId(X.OneAddress(gw, len).addrs, 1) && NetOfId(X.OneAddress(gw, len), 1) == NetOf(gw, len)
    ensures Struck(X.OneAddress(gw, len), 1) == X.OneAddress(gw, len)
  {
    X.OnlyAddress(gw, len);
    assert X.OneAddress(gw, len).learned - HostsOf(X.OneAddress(gw, len), 1) == map[];
  }

  lemma StrikeOne(vid: nat, c: Config, gw: Ip, len: PrefixLen)
    requires c.t == X.OneAddress(gw, len) && c.strays == map[] && c.pending == map[]
    requires 0 in c.active && c.active == map[0 := Deletion(c.active[0].r, None, [1])]
    ensures Enabled(c, vid, Strike(0)) && Advance(c, vid, Strike(0)).t == c.t
    ensures PausesAtOne(Advance(c, vid, Strike(0)), gw, len)
  {
    OnlyNet(gw, len);
    assert [1][1..] == [];
    assert Advance(c, vid, Strike(0)).active == map[0 := Deletion(c.active[0].r, Some(1), [])];
  }

  /** The entries go, and the suspended packets stop the deletion. */
  lemma EntriesGo(vid: nat, w: Whole, c: Config, p: P.State, gw: Ip, len: PrefixLen)
    returns (w': Whole, c': Config, p': P.State)
    requires Sides(vid, w, c, p, map[]) && Inv(c, vid) && c.t == X.OneAddress(gw, len) && p.t == c.t
    requires c.strays == map[] && c.pending == map[] && p.handlers == []
    requires 0 in c.active && c.active == map[0 := Deletion(c.active[0].r, None, [1])]
    requires P.Chosen(p, P.Deletion(NetOf(gw, len))) != []
    ensures Sides(vid, w', c', p', map[0 := 0]) && Inv(c', vid) && PausesAtOne(c', gw, len) && p'.t == c'.t
    ensures p' == P.Step(p, P.AddressGone(NetOf(gw, len)))
  {
    StrikeOne(vid, c, gw, len);
    StrikeStep(c, vid, Strike(0));
    OnlyNet(gw, len);
    c' := Advance(c, vid, Strike(0));
    p' := P.Step(p, P.AddressGone(NetOf(gw, len)));
    w' := StopOn(vid, w, c, p, map[], 0);
  }

  /** A reachable state in which the deletion of address 1 pauses with one more packet to take out. */
  lemma PauseReached(vid: nat, gw: Ip, len: PrefixLen) returns (w: Whole, c: Config, p: P.State, q: P.Packet)
    ensures Sides(vid, w, c, p, map[0 := 0]) && Inv(c, vid) && PausesAtOne(c, gw, len) && p.t == c.t
    ensures Idle(c) && AllPause(c.active, p.handlers, map[0 := 0])
    ensures Removing(p, NetOf(gw, len), [q])
  {
    var st: FlowStats;
    var net := NetOf(gw, len);
    w, c, st := Asked(vid, gw, len);
    X.OnlyAddress(gw, len);
    NetOfCovers(gw, len);
    AddressOfUnique(c.t.addrs, gw, net);
    var q0 := P.Packet(0, 1, gw, gw);
    q := P.Packet(1, 1, gw, gw);
    w := TwoArrive(vid, w, c, gw);
    p := P.BothWaiting(c.t, q0, q);
    w, c := ReportComes(vid, w, c, p, st);
    FirstDropped(c.t, net, q0, q);
    w, c, p := EntriesGo(vid, w, c, p, gw, len);
    StillPauses(c, p, net, q);
  }

  // (a) a timer takes out the second packet

  /** The address is registered without its entries, and no new deletion finds an entry to act on. */
  ghost predicate LeftWithoutEntries(vid: nat, c: Config, id: nat) {
    && Settled(c) && Valid(c.t) && HasId(c.t.addrs, id)
    && !Agrees(c.t, vid, c.table)
    && forall dump :: FromSeen(Stats(c.table), vid, dump) ==>
         DeletedIds(vid, Some(id), SkipIds(c.t, Some(id)), dump) == []
  }

  lemma NothingToDelete(vid: nat, c: Config, dump: seq<FlowStats>, gw: Ip, len: PrefixLen)
    requires Inv(c, vid) && PausesAtOne(c, gw, len) && FromSeen(Stats(c.table), vid, dump)
    ensures DeletedIds(vid, Some(1), SkipIds(c.t, Some(1)), dump) == []
  {
    var skip := SkipIds(c.t, Some(1));
    var ids := DeletedIds(vid, Some(1), skip, dump);
    if ids != [] {
      assert ids[0] in ids;
      DeletedIdsSound(vid, Some(1), skip, dump, ids[0]);
      AddressStatIdsElements(FilterAddresses(vid, Some(1), skip, dump), 1);
      var st :| st in FilterAddresses(vid, Some(1), skip, dump) && CookieToAddressId(st.cookie) == 1;
      FilterAddressesSound(vid, Some(1), skip, dump);
      ListedCookie(vid, Some(1), skip, dump, st);
      NoEntryLeft(vid, c, st, gw, len);
    }
  }

  /** While the deletion pauses, the switch holds no entry of the address. */
  lemma NoEntryLeft(vid: nat, c: Config, st: FlowStats, gw: Ip, len: PrefixLen)
    requires Inv(c, vid) && PausesAtOne(c, gw, len) && st in Stats(c.table)
    ensures st.cookie != AddressCookie(vid, 1)
  {
    var k :| k in c.table && st == FlowStats(k.priority, c.table[k].cookie);
    PausedAtOne(c, gw, len);
    NoEntryOf(c.t, vid, c.table, 1, k);
  }

  lemma PausedAtOne(c: Config, gw: Ip, len: PrefixLen)
    requires PausesAtOne(c, gw, len)
    ensures Paused(c.active) == {1} && c.strays == map[] && HostsOf(c.t, 1) == {} && HasId(c.t.addrs, 1)
  {
    assert c.active[0].at == Some(1);
    OnlyNet(gw, len);
  }

  lemma NoEntryOf(t: Tables, vid: nat, table: FlowTable, id: nat, k: FlowKey)
    requires Valid(t) && IdFits(id) && HostsOf(t, id) == {} && PausedAgrees(t, vid, {id}, map[], table) && k in table
    ensures table[k].cookie != AddressCookie(vid, id)
  {
    var full :| PausedFrom(t, vid, {id}, map[], table, full);
    StrayKeys(vid, map[], k);
    assert k in full && full[k] == table[k] && k !in OwnKeys(t.addrs, vid, {id});
    CookieKeys(t, vid, id, full, k);
  }

  lemma AbandonedDisagrees(t: Tables, vid: nat, table: FlowTable, id: nat)
    requires Valid(t) && HasId(t.addrs, id) && PausedAgrees(t, vid, {id}, map[], table)
    ensures !Agrees(t, vid, table)
  {
    AbandonedAddress(t, vid, {id}, map[], table, id, {}, map[]);
    NothingPaused(t, vid, table);
  }

  lemma AbortEnds(vid: nat, c: Config, gw: Ip, len: PrefixLen)
    requires PausesAtOne(c, gw, len)
    ensures Enabled(c, vid, Abort(0)) && Advance(c, vid, Abort(0)) == c.(active := map[])
  {
    assert c.active - {0} == map[];
  }

  lemma AbortLeaves(vid: nat, c: Config, gw: Ip, len: PrefixLen)
    requires Inv(c, vid) && PausesAtOne(c, gw, len)
    ensures Enabled(c, vid, Abort(0)) && LeftWithoutEntries(vid, Advance(c, vid, Abort(0)), 1)
  {
    AbortEnds(vid, c, gw, len);
    PausedAtOne(c, gw, len);
    AbandonedDisagrees(c.t, vid, c.table, 1);
    forall dump | FromSeen(Stats(c.table), vid, dump)
      ensures DeletedIds(vid, Some(1), SkipIds(c.t, Some(1)), dump) == []
    {
      NothingToDelete(vid, c, dump, gw, len);
    }
  }

  /**
   While the deletion of an address ends the thread of one suspended packet, the timer of another
   wakes up: the deletion fails with the address registered and its entries gone, and deleting the
   address again finds nothing.
   */
  lemma TimerInPause(vid: nat, gw: Ip, len: PrefixLen)
    ensures exists w :: Reached(vid, w) && WholeOk(vid, w) && LeftWithoutEntries(vid, After(vid, w.steps), 1)
  {
    var w, c, p, q := PauseReached(vid, gw, len);
    TimerThenFailure(p, NetOf(gw, len), q);
    w := PacketOn(vid, w, c, p, map[0 := 0], P.TimerFires(q.id));
    var p1 := P.Step(p, P.TimerFires(q.id));
    w := PacketOn(vid, w, c, p1, map[0 := 0], P.Resume(0));
    AbortLeaves(vid, c, gw, len);
    w := EndOn(vid, w, c, P.Step(p1, P.Resume(0)), map[0 := 0], 0);
  }

  // (b), (c) the packets are removed, but a handler has run in the pause

  lemma EndsByRemoval(vid: nat, w: Whole, c: Config, p: P.State, net: Prefix, q: P.Packet) returns (w': Whole)
    requires Sides(vid, w, c, p, map[0 := 0]) && Removing(p, net, [q])
    requires 0 in c.active && c.active == map[0 := Deletion(c.active[0].r, Some(1), [])]
    ensures WholeOk(vid, w') && Reached(vid, w')
    ensures var c' := After(vid, w'.steps);
      Settled(c') && c'.t == WithoutAddresses(c.t, {1}) && c'.table == c.table
  {
    var p2;
    w', p2 := PacketsRemoved(vid, w, c, p, net, q);
    ForgetThenFinish(vid, c);
    w' := EndOn(vid, w', c, p2, map[0 := 0], 0);
    var c1 := Advance(c, vid, Forget(0));
    w' := GoOn(vid, w', c1, p2.(t := c1.t), map[], Finish(0));
  }

  lemma PacketsRemoved(vid: nat, w: Whole, c: Config, p: P.State, net: Prefix, q: P.Packet)
    returns (w': Whole, p': P.State)
    requires Sides(vid, w, c, p, map[0 := 0]) && Removing(p, net, [q])
    requires 0 in c.active && c.active == map[0 := Deletion(c.active[0].r, Some(1), [])]
    ensures Sides(vid, w', c, p', map[0 := 0]) && |p'.handlers| == 1 && p'.handlers[0].phase.Done?
  {
    ResumesToEnd(p, net, q);
    var p1 := P.Step(p, P.Resume(0));
    w' := PacketOn(vid, w, c, p, map[0 := 0], P.Resume(0));
    w' := PacketOn(vid, w', c, p1, map[0 := 0], P.Resume(0));
    p' := P.Step(p1, P.Resume(0));
  }

  lemma ForgetThenFinish(vid: nat, c: Config)
    requires 0 in c.active && c.active == map[0 := Deletion(c.active[0].r, Some(1), [])]
    ensures Enabled(c, vid, Forget(0)) && Enabled(Advance(c, vid, Forget(0)), vid, Finish(0))
    ensures forall handlers :: AllPause(Advance(c, vid, Forget(0)).active, handlers, map[])
    ensures var c' := Advance(Advance(c, vid, Forget(0)), vid, Finish(0));
      Settled(c') && c'.t == WithoutAddresses(c.t, {1}) && c'.table == c.table
  {
    var c1 := Advance(c, vid, Forget(0));
    assert c1.active == map[0 := Deletion(c.active[0].r, None, [])];
    assert Advance(c1, vid, Finish(0)).active == map[];
  }

  ghost predicate LostGateway(c: Config) {
    Settled(c) && X.Stranded(c.t, DEFAULT_NET)
  }

  /** A route through the address is accepted in the pause, and then the address goes. */
  lemma RouteInPause(vid: nat, gw: Ip, len: PrefixLen, gateway: Ip)
    requires gateway != gw && Covers(NetOf(gw, len), gateway)
    ensures exists w :: Reached(vid, w) && WholeOk(vid, w) && LostGateway(After(vid, w.steps))
  {
    var w, c, p, q := PauseReached(vid, gw, len);
    var r := Route(c.t.nextRoute, true, DEFAULT_NET, gateway, None);
    var s := Handle(SetRoute(DefaultRoute, gateway), RouteMods(vid, r));
    X.DefaultAccepted(c.t, gw, len, gateway);
    w := GoOn(vid, w, c, p, map[0 := 0], s);
    var c1 := Advance(c, vid, s);
    X.OnlyAddressDeleted(c1.t, gw, len, DEFAULT_NET);
    w := EndsByRemoval(vid, w, c1, p.(t := c1.t), NetOf(gw, len), q);
  }

  /** The switch forwards to a host the tables do not know. */
  ghost predicate HoldsUnknownHost(vid: nat, c: Config, ip: Ip) {
    Settled(c) && Valid(c.t) && ip !in c.t.learned && HostKey(vid, ip) in c.table && !Agrees(c.t, vid, c.table)
  }

  /** A host of the network is learned in the pause, and its entry outlives the address. */
  lemma HostInPause(vid: nat, gw: Ip, len: PrefixLen, ip: Ip, hop: Hop)
    requires Covers(NetOf(gw, len), ip)
    ensures exists w :: Reached(vid, w) && WholeOk(vid, w) && HoldsUnknownHost(vid, After(vid, w.steps), ip)
  {
    var w, c, p, q, before := HostLearned(vid, gw, len, ip, hop);
    LearnedThenDeleted(vid, c.t, before, c.table, ip, hop, gw, len);
    w := EndsByRemoval(vid, w, c, p, NetOf(gw, len), q);
  }

  /** The deletion pauses, and a host of the network is learned. */
  lemma HostLearned(vid: nat, gw: Ip, len: PrefixLen, ip: Ip, hop: Hop)
    returns (w: Whole, c: Config, p: P.State, q: P.Packet, before: FlowTable)
    requires Covers(NetOf(gw, len), ip)
    ensures Sides(vid, w, c, p, map[0 := 0]) && Removing(p, NetOf(gw, len), [q])
    ensures 0 in c.active && c.active == map[0 := Deletion(c.active[0].r, Some(1), [])]
    ensures c.t == X.OneAddress(gw, len).(learned := map[ip := hop])
    ensures c.table == ApplyMods(before, HostMods(vid, 1, ip, hop))
  {
    var c0, p0;
    w, c0, p0, q := PauseReached(vid, gw, len);
    var s := Handle(Arp(ip, hop), HostMods(vid, 1, ip, hop));
    HostIsLearned(vid, c0, gw, len, ip, hop);
    NoReplyInPause(p0, NetOf(gw, len), q, Advance(c0, vid, s).t);
    w := GoOn(vid, w, c0, p0, map[0 := 0], s);
    c, p, before := Advance(c0, vid, s), p0.(t := Advance(c0, vid, s).t), c0.table;
  }

  lemma NoReplyInPause(p: P.State, net: Prefix, q: P.Packet, t: Tables)
    requires Removing(p, net, [q])
    ensures P.NoReplyRuns(p) && Removing(p.(t := t), net, [q])
    ensures |p.handlers| == 1 && p.handlers[0].phase.Running?
  {
  }

  lemma HostIsLearned(vid: nat, c: Config, gw: Ip, len: PrefixLen, ip: Ip, hop: Hop)
    requires PausesAtOne(c, gw, len) && Covers(NetOf(gw, len), ip)
    ensures var s := Handle(Arp(ip, hop), HostMods(vid, 1, ip, hop));
      && Enabled(c, vid, s)
      && Advance(c, vid, s).t == c.t.(learned := map[ip := hop])
      && Advance(c, vid, s).table == ApplyMods(c.table, HostMods(vid, 1, ip, hop))
      && Advance(c, vid, s).active == c.active
  {
    X.OnlyAddress(gw, len);
    assert AddressOf(c.t.addrs, ip) == Some(Address(1, NetOf(gw, len), gw));
    assert !IsGateway(c.t, ip);
    assert Emits(c.t, vid, Arp(ip, hop), HostMods(vid, 1, ip, hop));
    assert Next(c.t, vid, Arp(ip, hop)) == c.t.(learned := map[ip := hop]);
  }

  lemma LearnedThenDeleted(vid: nat, t: Tables, table: FlowTable, table': FlowTable, ip: Ip, hop: Hop, gw: Ip,
                           len: PrefixLen)
    requires t == X.OneAddress(gw, len).(learned := map[ip := hop]) && Covers(NetOf(gw, len), ip)
    requires table' == ApplyMods(table, HostMods(vid, 1, ip, hop))
    ensures var t' := WithoutAddresses(t, {1});
      Valid(t') && ip !in t'.learned && HostKey(vid, ip) in table' && !Agrees(t', vid, table')
  {
    var t' := WithoutAddresses(t, {1});
    X.OnlyAddress(gw, len);
    ApplyOne(table, HostMods(vid, 1, ip, hop)[0]);
    assert HostMods(vid, 1, ip, hop) == [HostMods(vid, 1, ip, hop)[0]];
    assert AddressesWithout(t.addrs, {1}) == map[];
    HostKeysApart(map[], vid, {}, ip);
    assert !Holds(table', HostKey(vid, ip), ExpectedAddress(t'.addrs, t'.learned, vid, HostKey(vid, ip)));
  }
}
