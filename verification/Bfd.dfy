/**
 A BFD session as `bfdlib.py` runs it: the state machine of RFC 5880 section 6.8.6, the timers of
 sections 6.8.3 and 6.8.7, and the checks a packet must pass before a session sees it.
 */
module Bfd {
  import opened Wrappers

  datatype State = AdminDown | Down | Init | Up

  datatype Diag = NoDiag | DetectTimeExpired | NeighborSignaledDown

  /** What `recv_bfd_pkt` and `recv` look at in a BFD control packet and its IP header. */
  datatype Packet = Packet(
    ttl: nat, ver: nat, length: nat, multipoint: bool, auth: bool,
    diag: Diag, state: State, poll: bool, final: bool, demand: bool, detectMult: nat,
    myDiscr: nat, yourDiscr: nat, desiredMinTx: nat, requiredMinRx: nat)

  const ONE_SECOND: nat := 1000000

  /** The variables of a session; intervals and times are in microseconds. */
  datatype Session = Session(
    state: State, remoteSessionState: State, localDiscr: nat, remoteDiscr: nat, localDiag: Diag,
    desiredMinTx: nat, requiredMinRx: nat, remoteMinRx: int, remoteDemand: bool, detectMult: nat,
    cfgDesiredMinTx: nat, detectTime: nat, xmitPeriod: real,
    isPolling: bool, pendingFinal: bool, enableSend: bool)

  /** The jitter, in percent: `random.randint(75, 90)` or `random.randint(75, 100)`. */
  predicate JitterOk(detectMult: nat, percent: nat) {
    75 <= percent <= if detectMult == 1 then 90 else 100
  }

  function Max(a: int, b: int): int {
    if a > b then a else b
  }

  function Period(s: Session, percent: nat): real {
    Scaled(Max(s.desiredMinTx, s.remoteMinRx), percent)
  }

  function Scaled(interval: int, percent: nat): real {
    interval as real * (percent as real / 100.0)
  }

  function WithPeriod(s: Session, percent: nat): Session {
    s.(xmitPeriod := Period(s, percent))
  }

  /** A new session, with the discriminator and the intervals it was configured with. */
  function Fresh(discr: nat, detectMult: nat, desiredMinTx: nat, requiredMinRx: nat, percent: nat): Session {
    WithPeriod(
      Session(Down, Down, discr, 0, NoDiag, ONE_SECOND, requiredMinRx, -1, false, detectMult,
              desiredMinTx, 0, 0.0, true, false, true),
      percent)
  }

  // ---------------------------------------------------------------- steps of one session

  /** The session state machine of RFC 5880 section 6.8.6. */
  function NextState(mine: State, received: State): State {
    match mine
    case AdminDown => AdminDown
    case Down => if received == Down then Init else if received == Init then Up else Down
    case Init =>
      if received == AdminDown then Down
      else if received == Init || received == Up then Up else Init
    case Up => if received == AdminDown || received == Down then Down else Up
  }

  /** A change of state, with what depends on it. */
  function Enter(s: Session, state: State, diag: Option<Diag>, percent: nat): Session {
    match state
    case Down =>
      var d := if diag.Some? then diag.value else s.localDiag;
      WithPeriod(s.(state := Down, localDiag := d, desiredMinTx := ONE_SECOND, isPolling := true), percent)
    case Up =>
      WithPeriod(s.(state := Up, desiredMinTx := s.cfgDesiredMinTx, isPolling := true), percent)
    case _ => s.(state := state)
  }

  function TakeRemote(s: Session, p: Packet, percent: nat): Session {
    var t := s.(remoteDiscr := p.myDiscr, remoteDemand := p.demand,
                isPolling := s.isPolling && !p.final, remoteMinRx := p.requiredMinRx);
    if s.remoteMinRx != p.requiredMinRx then WithPeriod(t, percent) else t
  }

  function ChangeState(s: Session, received: State, percent: nat): Session {
    var next := NextState(s.state, received);
    if next == s.state then s
    else Enter(s, next, if next == Down then Some(NeighborSignaledDown) else None, percent)
  }

  function TakeTimes(s: Session, p: Packet): Session {
    s.(detectTime := if s.detectTime == 0 || p.poll then p.desiredMinTx * p.detectMult else s.detectTime,
       pendingFinal := s.pendingFinal || p.poll)
  }

  /** Whether the periodic loop goes on; it ends only in demand mode with both ends known to be Up. */
  function TakeDemand(s: Session): Session {
    s.(enableSend := !(s.remoteDemand && s.state == Up && s.remoteSessionState == Up))
  }

  /** The session after a packet; the two numbers are the jitter of the two updates of the period. */
  function Receive(s: Session, p: Packet, percent1: nat, percent2: nat): Session {
    var t := TakeRemote(s, p, percent1);
    if t.state == AdminDown then t
    else TakeTimes(TakeDemand(ChangeState(t, p.state, percent2)), p)
  }

  /** The detection time ran out. */
  function TimeOut(s: Session, percent: nat): Session {
    if s.state == Down || s.state == AdminDown then s
    else Enter(s, Down, Some(DetectTimeExpired), percent)
  }

  /** The periodic loop sends unless the peer asked for no packets, or for demand mode. */
  predicate MaySend(s: Session) {
    && s.enableSend
    && s.remoteMinRx != 0
    && !(s.remoteDemand && s.state == Up && s.remoteSessionState == Up && !s.isPolling)
  }

  function Sent(s: Session): Packet {
    Packet(255, 1, 24, false, false, s.localDiag, s.state, s.isPolling && !s.pendingFinal, s.pendingFinal,
           false, s.detectMult, s.localDiscr, s.remoteDiscr, s.desiredMinTx, s.requiredMinRx)
  }

  function AfterSend(s: Session): Session {
    s.(isPolling := s.isPolling && !s.pendingFinal, pendingFinal := false)
  }

  // ---------------------------------------------------------------- timers

  predicate PeriodOk(s: Session, percent: nat) {
    JitterOk(s.detectMult, percent) && s.xmitPeriod == Period(s, percent)
  }

  /**
   RFC 5880 sections 6.8.3 and 6.8.7: the desired interval is the configured one only while Up,
   and the period is the larger interval less the jitter.
   */
  ghost predicate TimersOk(s: Session) {
    && s.desiredMinTx == (if s.state == Up then s.cfgDesiredMinTx else ONE_SECOND)
    && s.state != AdminDown
    && s.remoteSessionState == Down
    && s.enableSend
    && exists percent :: PeriodOk(s, percent)
  }

  lemma FreshTimers(discr: nat, mult: nat, desired: nat, minRx: nat, percent: nat)
    requires JitterOk(mult, percent)
    ensures TimersOk(Fresh(discr, mult, desired, minRx, percent))
  {
    assert PeriodOk(Fresh(discr, mult, desired, minRx, percent), percent);
  }

  lemma TakeRemoteTimers(s: Session, p: Packet, percent: nat)
    requires TimersOk(s) && JitterOk(s.detectMult, percent)
    ensures TimersOk(TakeRemote(s, p, percent))
  {
    var t := TakeRemote(s, p, percent);
    if s.remoteMinRx != p.requiredMinRx {
      assert PeriodOk(t, percent);
    } else {
      var old_ :| PeriodOk(s, old_);
      assert PeriodOk(t, old_);
    }
  }

  lemma EnterTimers(s: Session, state: State, diag: Option<Diag>, percent: nat)
    requires TimersOk(s) && JitterOk(s.detectMult, percent) && state != AdminDown
    requires state == Init ==> s.state == Down
    ensures TimersOk(Enter(s, state, diag, percent))
  {
    var t := Enter(s, state, diag, percent);
    if state == Init {
      var old_ :| PeriodOk(s, old_);
      assert PeriodOk(t, old_);
    } else {
      assert PeriodOk(t, percent);
    }
  }

  lemma TakeTimesTimers(s: Session, p: Packet)
    requires TimersOk(s)
    ensures TimersOk(TakeTimes(s, p))
  {
    var percent :| PeriodOk(s, percent);
    assert PeriodOk(TakeTimes(s, p), percent);
  }

  lemma TakeDemandTimers(s: Session)
    requires TimersOk(s)
    ensures TimersOk(TakeDemand(s))
  {
    var percent :| PeriodOk(s, percent);
    assert PeriodOk(TakeDemand(s), percent);
  }

  lemma ReceiveTimers(s: Session, p: Packet, percent1: nat, percent2: nat)
    requires TimersOk(s) && JitterOk(s.detectMult, percent1) && JitterOk(s.detectMult, percent2)
    ensures TimersOk(Receive(s, p, percent1, percent2))
  {
    TakeRemoteTimers(s, p, percent1);
    var t := TakeRemote(s, p, percent1);
    var next := NextState(t.state, p.state);
    if next != t.state {
      EnterTimers(t, next, if next == Down then Some(NeighborSignaledDown) else None, percent2);
    }
    var u := ChangeState(t, p.state, percent2);
    TakeDemandTimers(u);
    TakeTimesTimers(TakeDemand(u), p);
  }

  lemma TimeOutTimers(s: Session, percent: nat)
    requires TimersOk(s) && JitterOk(s.detectMult, percent)
    ensures TimersOk(TimeOut(s, percent))
  {
    if s.state != Down {
      EnterTimers(s, Down, Some(DetectTimeExpired), percent);
    }
  }

  lemma SendTimers(s: Session)
    requires TimersOk(s)
    ensures TimersOk(AfterSend(s))
  {
    var percent :| PeriodOk(s, percent);
    assert PeriodOk(AfterSend(s), percent);
  }

  /** The largest share of the interval that may pass between packets, in percent. */
  function MostPercent(detectMult: nat): real {
    if detectMult == 1 then 90.0 else 100.0
  }

  /** What the timer invariant bounds: the transmit period, as the RFC's section 6.8.7 has it. */
  lemma PeriodBounds(s: Session)
    requires TimersOk(s)
    ensures var mine, peers := s.desiredMinTx as real, s.remoteMinRx as real;
      var most := if s.detectMult == 1 then 90.0 else 100.0;
      && 75.0 * mine <= 100.0 * s.xmitPeriod && 75.0 * peers <= 100.0 * s.xmitPeriod
      && (100.0 * s.xmitPeriod <= most * mine || 100.0 * s.xmitPeriod <= most * peers)
  {
    var percent :| PeriodOk(s, percent);
    ScaledBounds(Max(s.desiredMinTx, s.remoteMinRx), percent, MostPercent(s.detectMult));
  }

  lemma ScaledBounds(interval: int, percent: nat, most: real)
    requires interval >= 0 && 75 <= percent && percent as real <= most
    ensures 75.0 * interval as real <= 100.0 * Scaled(interval, percent) <= most * interval as real
  {
    var x, share := interval as real, percent as real;
    assert 100.0 * (x * (share / 100.0)) == x * share;
    assert x * (share - 75.0) >= 0.0;
    assert x * (most - share) >= 0.0;
  }

  // ---------------------------------------------------------------- what a packet changes

  /**
   Section 6.8.4 of RFC 5880: the detection time is the peer's interval times its multiplier. It is
   taken from a packet that polls, and from any packet while none is set.
   */
  lemma ReceiveSetsDetection(s: Session, p: Packet, percent1: nat, percent2: nat)
    ensures var t := Receive(s, p, percent1, percent2);
      && (s.state == AdminDown ==> t.detectTime == s.detectTime)
      && (s.state != AdminDown && (p.poll || s.detectTime == 0) ==> t.detectTime == p.desiredMinTx * p.detectMult)
      && (!p.poll && s.detectTime != 0 ==> t.detectTime == s.detectTime)
  {
    ChangeStateKeeps(TakeRemote(s, p, percent1), p.state, percent2);
  }

  lemma ChangeStateKeeps(s: Session, received: State, percent: nat)
    ensures var t := ChangeState(s, received, percent);
      && t.remoteDiscr == s.remoteDiscr && t.remoteMinRx == s.remoteMinRx && t.remoteDemand == s.remoteDemand
      && t.pendingFinal == s.pendingFinal && t.detectTime == s.detectTime
      && t.localDiag == (if t.state == Down && s.state != Down then NeighborSignaledDown else s.localDiag)
  {
  }

  /** What the session learns of its peer, and the diagnostic it reports when the peer takes it down. */
  lemma ReceiveLearns(s: Session, p: Packet, percent1: nat, percent2: nat)
    ensures var t := Receive(s, p, percent1, percent2);
      && t.remoteDiscr == p.myDiscr && t.remoteMinRx == p.requiredMinRx && t.remoteDemand == p.demand
      && t.localDiag == (if t.state == Down && s.state != Down then NeighborSignaledDown else s.localDiag)
      && t.pendingFinal == (s.pendingFinal || (p.poll && s.state != AdminDown))
  {
    var t := TakeRemote(s, p, percent1);
    assert t.state == s.state && t.localDiag == s.localDiag && t.pendingFinal == s.pendingFinal;
    ChangeStateKeeps(t, p.state, percent2);
  }

  /** A detection timeout takes the session down, says why, and asks the peer for an answer. */
  lemma TimeOutTakesDown(s: Session, percent: nat)
    ensures var t := TimeOut(s, percent);
      if s.state == Init || s.state == Up
      then t.state == Down && t.localDiag == DetectTimeExpired && t.desiredMinTx == 1000000 && t.isPolling
           && t.detectTime == s.detectTime && t.remoteDiscr == s.remoteDiscr
      else t == s
  {
  }

  /**
   The state `_remote_session_state` is never updated, so that the demand mode of the peer stops
   nothing: a session is silent only while its peer asks for no packets at all.
   */
  lemma DemandStopsNothing(s: Session)
    requires TimersOk(s)
    ensures MaySend(s) <==> s.remoteMinRx != 0
  {
  }

  // ---------------------------------------------------------------- poll sequences

  /** A poll is answered by the next packet, which polls itself only if it does not answer. */
  lemma PollIsAnswered(s: Session, p: Packet, percent1: nat, percent2: nat)
    ensures p.poll && s.state != AdminDown ==> Sent(Receive(s, p, percent1, percent2)).final
    ensures Sent(s).final <==> s.pendingFinal
    ensures Sent(s).poll <==> s.isPolling && !Sent(s).final
    ensures !Sent(AfterSend(s)).final
  {
  }

  /**
   A poll sequence ends when a Final arrives, and also when the session answers a poll of its peer:
   the packet that carries the Final clears the session's own poll, answered or not.
   */
  lemma PollEnds(s: Session, p: Packet, percent1: nat, percent2: nat)
    requires s.isPolling && s.state != AdminDown
    ensures !AfterSend(s).isPolling <==> s.pendingFinal
    ensures !Receive(s, p, percent1, percent2).isPolling <==>
      p.final && NextState(s.state, p.state) !in {Down, Up} - {s.state}
  {
  }

  // ---------------------------------------------------------------- the checks of recv_bfd_pkt

  /** A session as `recv_bfd_pkt` looks it up: its discriminator, switch and port. */
  datatype Entry = Entry(discr: nat, dpid: nat, ofport: nat)

  /** The checks of RFC 5880 section 6.8.6 that need no session, and that of RFC 5881 section 5. */
  predicate WellFormed(p: Packet) {
    && p.ttl == 255
    && p.ver == 1
    && p.length >= (if p.auth then 26 else 24)
    && p.detectMult != 0
    && !p.multipoint
    && p.myDiscr != 0
    && (p.yourDiscr == 0 ==> p.state == AdminDown || p.state == Down)
  }

  /** By discriminator, or by switch and port while the peer does not know the discriminator yet. */
  predicate Matches(e: Entry, dpid: nat, inPort: nat, p: Packet) {
    if p.yourDiscr == 0 then e.dpid == dpid && e.ofport == inPort else e.discr == p.yourDiscr
  }

  function FirstMatch(sessions: seq<Entry>, dpid: nat, inPort: nat, p: Packet): Option<nat> {
    if sessions == [] then None
    else if Matches(sessions[0], dpid, inPort, p) then Some(sessions[0].discr)
    else FirstMatch(sessions[1..], dpid, inPort, p)
  }

  /** The session, none of which uses authentication, that takes a packet seen on a port. */
  function Taker(sessions: seq<Entry>, dpid: nat, inPort: nat, p: Packet): Option<nat> {
    if WellFormed(p) && !p.auth then FirstMatch(sessions, dpid, inPort, p) else None
  }

  method RecvBfdPkt(sessions: seq<Entry>, dpid: nat, inPort: nat, p: Packet) returns (taker: Option<nat>)
    ensures taker == Taker(sessions, dpid, inPort, p)
    ensures taker.Some? ==>
      && p.ttl == 255 && p.ver == 1 && p.length >= 24 && !p.auth && !p.multipoint
      && p.detectMult != 0 && p.myDiscr != 0 && (p.yourDiscr == 0 ==> p.state == AdminDown || p.state == Down)
      && exists e :: e in sessions && e.discr == taker.value
           && if p.yourDiscr != 0 then e.discr == p.yourDiscr else e.dpid == dpid && e.ofport == inPort
    ensures
      (&& taker.None? && p.ttl == 255 && p.ver == 1 && p.length >= 24 && !p.auth && !p.multipoint
       && p.detectMult != 0 && p.myDiscr != 0 && (p.yourDiscr == 0 ==> p.state == AdminDown || p.state == Down)) ==>
      forall e :: e in sessions ==>
        if p.yourDiscr != 0 then e.discr != p.yourDiscr else e.dpid != dpid || e.ofport != inPort
  {
    if !WellFormed(p) {
      return None;
    }
    taker := None;
    var i := 0;
    while i < |sessions| && taker.None?
      invariant i <= |sessions|
      invariant taker.Some? ==> exists e :: e in sessions && e.discr == taker.value && Matches(e, dpid, inPort, p)
      invariant taker.None? ==> forall j :: 0 <= j < i ==> !Matches(sessions[j], dpid, inPort, p)
      invariant FirstMatch(sessions, dpid, inPort, p)
             == if taker.Some? then taker else FirstMatch(sessions[i..], dpid, inPort, p)
    {
      if Matches(sessions[i], dpid, inPort, p) {
        taker := Some(sessions[i].discr);
      }
      i := i + 1;
    }
    if p.auth {
      taker := None;
    }
  }

  lemma {:induction false} FirstMatchFinds(sessions: seq<Entry>, dpid: nat, inPort: nat, p: Packet, e: Entry)
    requires e in sessions && Matches(e, dpid, inPort, p)
    requires forall f :: f in sessions && Matches(f, dpid, inPort, p) ==> f.discr == e.discr
    ensures FirstMatch(sessions, dpid, inPort, p) == Some(e.discr)
  {
    if !Matches(sessions[0], dpid, inPort, p) {
      FirstMatchFinds(sessions[1..], dpid, inPort, p, e);
    } else {
      assert sessions[0] in sessions;
    }
  }

  // ---------------------------------------------------------------- two sessions and the network

  /** One end: its session, what it ever sent, and what it processed. */
  datatype End = End(sess: Session, sent: set<Packet>, got: set<Packet>)

  datatype Net = Net(a: End, b: End)

  /**
   A packet once sent stays deliverable: it may arrive late, out of order, any number of times, or
   never.
   */
  datatype Event =
    | Send(atA: bool)
    | Deliver(atA: bool, p: Packet, percent1: nat, percent2: nat)
    | Expire(atA: bool, percent: nat)

  predicate Enabled(n: Net, e: Event) {
    var me := if e.atA then n.a else n.b;
    var peer := if e.atA then n.b else n.a;
    match e
    case Send(_) => MaySend(me.sess)
    case Deliver(_, p, percent1, percent2) =>
      p in peer.sent && JitterOk(me.sess.detectMult, percent1) && JitterOk(me.sess.detectMult, percent2)
    case Expire(_, percent) => JitterOk(me.sess.detectMult, percent)
  }

  function EndAfter(me: End, e: Event): End {
    match e
    case Send(_) => me.(sess := AfterSend(me.sess), sent := me.sent + {Sent(me.sess)})
    case Deliver(_, p, percent1, percent2) =>
      me.(sess := Receive(me.sess, p, percent1, percent2), got := me.got + {p})
    case Expire(_, percent) => me.(sess := TimeOut(me.sess, percent))
  }

  function Step(n: Net, e: Event): Net {
    if e.atA then n.(a := EndAfter(n.a, e)) else n.(b := EndAfter(n.b, e))
  }

  /** What holds of a packet that `me` sent to the end whose discriminator is `peer`. */
  ghost predicate SentOk(me: End, peer: nat, p: Packet) {
    && WellFormed(p) && !p.auth && !p.demand
    && p.myDiscr == me.sess.localDiscr
    && (p.yourDiscr == 0 || p.yourDiscr == peer)
    && p.requiredMinRx == me.sess.requiredMinRx
    && p.detectMult == me.sess.detectMult
    && p.desiredMinTx == (if p.state == Up then me.sess.cfgDesiredMinTx else 1000000)
    && !(p.poll && p.final)
    && (p.final ==> exists q :: q in me.got && q.poll)
    && (p.state == Init || p.state == Up ==> p.yourDiscr == peer && me.got != {})
  }

  ghost predicate EndOk(me: End, peer: End) {
    && me.sess.localDiscr > 0 && me.sess.detectMult > 0 && peer.sess.localDiscr > 0
    && TimersOk(me.sess)
    && me.got <= peer.sent
    && PeerKnown(me, peer)
    && (me.sess.state == Up ==> peer.got != {})
    && (forall p :: p in me.sent ==> SentOk(me, peer.sess.localDiscr, p))
  }

  /** What a session has learned of its peer, and what it owes to a packet of the peer. */
  ghost predicate PeerKnown(me: End, peer: End) {
    var s := me.sess;
    && (s.remoteDiscr == 0 || s.remoteDiscr == peer.sess.localDiscr)
    && s.remoteMinRx == (if me.got == {} then -1 else peer.sess.requiredMinRx)
    && (s.pendingFinal ==> exists q :: q in me.got && q.poll)
    && (me.got == {} ==> s.detectTime == 0)
    && (me.got != {} ==>
          s.detectTime in {peer.sess.detectMult * 1000000, peer.sess.detectMult * peer.sess.cfgDesiredMinTx})
    && (s.state == Init || s.state == Up ==> s.remoteDiscr == peer.sess.localDiscr && me.got != {})
  }

  ghost predicate NetOk(n: Net) {
    EndOk(n.a, n.b) && EndOk(n.b, n.a)
  }

  predicate SameConfig(s: Session, t: Session) {
    && s.localDiscr == t.localDiscr && s.requiredMinRx == t.requiredMinRx && s.detectMult == t.detectMult
    && s.cfgDesiredMinTx == t.cfgDesiredMinTx
  }

  lemma SendKeepsEnd(me: End, peer: End)
    requires EndOk(me, peer)
    ensures EndOk(EndAfter(me, Send(true)), peer)
  {
    var next := EndAfter(me, Send(true));
    SendTimers(me.sess);
    forall p | p in next.sent
      ensures SentOk(next, peer.sess.localDiscr, p)
    {
      if p in me.sent {
        assert SentOk(me, peer.sess.localDiscr, p);
      } else {
        assert p == Sent(me.sess);
      }
    }
  }

  lemma DeliverMakesKnown(me: End, peer: End, p: Packet, percent1: nat, percent2: nat)
    requires PeerKnown(me, peer) && me.sess.state != AdminDown && SentOk(peer, me.sess.localDiscr, p)
    ensures PeerKnown(EndAfter(me, Deliver(true, p, percent1, percent2)), peer)
  {
    var s, next := me.sess, EndAfter(me, Deliver(true, p, percent1, percent2));
    ReceiveLearns(s, p, percent1, percent2);
    ReceiveSetsDetection(s, p, percent1, percent2);
    assert p in next.got;
    assert next.sess.pendingFinal ==> exists q :: q in next.got && q.poll;
  }

  lemma DeliverKeepsEnd(me: End, peer: End, p: Packet, percent1: nat, percent2: nat)
    requires EndOk(me, peer) && p in peer.sent && SentOk(peer, me.sess.localDiscr, p)
    requires JitterOk(me.sess.detectMult, percent1) && JitterOk(me.sess.detectMult, percent2)
    ensures EndOk(EndAfter(me, Deliver(true, p, percent1, percent2)), peer)
  {
    var next := EndAfter(me, Deliver(true, p, percent1, percent2));
    ReceiveTimers(me.sess, p, percent1, percent2);
    DeliverMakesKnown(me, peer, p, percent1, percent2);
    ReceiveState(me.sess, p, percent1, percent2);
    assert p in next.got;
    forall q | q in next.sent
      ensures SentOk(next, peer.sess.localDiscr, q)
    {
      assert SentOk(me, peer.sess.localDiscr, q);
    }
  }

  lemma ExpireKeepsEnd(me: End, peer: End, percent: nat)
    requires EndOk(me, peer) && JitterOk(me.sess.detectMult, percent)
    ensures EndOk(EndAfter(me, Expire(true, percent)), peer)
  {
    var next := EndAfter(me, Expire(true, percent));
    TimeOutTimers(me.sess, percent);
    forall q | q in next.sent
      ensures SentOk(next, peer.sess.localDiscr, q)
    {
      assert SentOk(me, peer.sess.localDiscr, q);
    }
  }

  /** What one end may rely on survives any step of the other. */
  lemma PeerStepKeepsEnd(me: End, peer: End, peer2: End)
    requires EndOk(me, peer)
    requires peer.got <= peer2.got && peer.sent <= peer2.sent && SameConfig(peer.sess, peer2.sess)
    ensures EndOk(me, peer2)
  {
  }

  lemma ChangedState(s: Session, received: State, percent: nat)
    ensures ChangeState(s, received, percent).state == NextState(s.state, received)
    ensures SameConfig(s, ChangeState(s, received, percent))
  {
  }

  /** The state machine of RFC 5880 section 6.8.6, by the state it goes to. */
  lemma NextStateIs(mine: State, received: State)
    ensures var next := NextState(mine, received);
      && (next == AdminDown <==> mine == AdminDown)
      && (next == Init <==> mine in {Down, Init} && received == Down)
      && (next == Up <==> || (mine == Down && received == Init)
                          || (mine in {Init, Up} && received in {Init, Up}))
  {
  }

  lemma ReceiveState(s: Session, p: Packet, percent1: nat, percent2: nat)
    ensures Receive(s, p, percent1, percent2).state == NextState(s.state, p.state)
    ensures SameConfig(s, Receive(s, p, percent1, percent2))
  {
    var t := TakeRemote(s, p, percent1);
    assert t.state == s.state && SameConfig(s, t);
    ChangedState(t, p.state, percent2);
  }

  lemma StepConfig(me: End, e: Event)
    ensures SameConfig(me.sess, EndAfter(me, e).sess)
    ensures me.got <= EndAfter(me, e).got && me.sent <= EndAfter(me, e).sent
  {
    if e.Deliver? {
      ReceiveState(me.sess, e.p, e.percent1, e.percent2);
    }
  }

  lemma StepKeepsNet(n: Net, e: Event)
    requires NetOk(n) && Enabled(n, e)
    ensures NetOk(Step(n, e))
  {
    var me := if e.atA then n.a else n.b;
    var peer := if e.atA then n.b else n.a;
    match e {
      case Send(_) => SendKeepsEnd(me, peer);
      case Deliver(_, p, percent1, percent2) =>
        assert SentOk(peer, me.sess.localDiscr, p);
        DeliverKeepsEnd(me, peer, p, percent1, percent2);
      case Expire(_, percent) => ExpireKeepsEnd(me, peer, percent);
    }
    var next := EndAfter(me, e);
    StepConfig(me, e);
    PeerStepKeepsEnd(peer, me, next);
  }

  function Start(a: Session, b: Session): Net {
    Net(End(a, {}, {}), End(b, {}, {}))
  }

  /** A session as it is created, with a discriminator and a multiplier that are not zero. */
  ghost predicate New(s: Session) {
    && s.localDiscr > 0 && s.detectMult > 0
    && (exists percent ::
          && JitterOk(s.detectMult, percent)
          && s == Fresh(s.localDiscr, s.detectMult, s.cfgDesiredMinTx, s.requiredMinRx, percent))
  }

  predicate IsRun(n: Net, es: seq<Event>)
    decreases |es|
  {
    es != [] ==> Enabled(n, es[0]) && IsRun(Step(n, es[0]), es[1..])
  }

  function After(n: Net, es: seq<Event>): Net
    decreases |es|
  {
    if es == [] then n else After(Step(n, es[0]), es[1..])
  }

  lemma {:induction false} RunKeepsNet(n: Net, es: seq<Event>)
    requires NetOk(n) && IsRun(n, es)
    ensures NetOk(After(n, es))
    decreases |es|
  {
    if es != [] {
      StepKeepsNet(n, es[0]);
      RunKeepsNet(Step(n, es[0]), es[1..]);
    }
  }

  ghost predicate Reachable(n: Net, a: Session, b: Session) {
    exists es :: IsRun(Start(a, b), es) && n == After(Start(a, b), es)
  }

  lemma ReachableOk(n: Net, a: Session, b: Session)
    requires New(a) && New(b) && Reachable(n, a, b)
    ensures NetOk(n)
  {
    FreshOk(a);
    FreshOk(b);
    var es :| IsRun(Start(a, b), es) && n == After(Start(a, b), es);
    RunKeepsNet(Start(a, b), es);
  }

  lemma FreshOk(s: Session)
    requires New(s)
    ensures TimersOk(s)
  {
    var percent :| JitterOk(s.detectMult, percent)
      && s == Fresh(s.localDiscr, s.detectMult, s.cfgDesiredMinTx, s.requiredMinRx, percent);
    FreshTimers(s.localDiscr, s.detectMult, s.cfgDesiredMinTx, s.requiredMinRx, percent);
  }

  /**
   The three-way handshake of RFC 5880 section 6.2, whatever the network loses, repeats, delays or
   reorders: an end that is Up has its peer already processing its packets, and itself processed one.
   */
  lemma UpMeansHeard(n: Net, a: Session, b: Session)
    requires New(a) && New(b) && Reachable(n, a, b)
    ensures n.a.sess.state == Up ==> n.b.got != {} && n.b.got <= n.a.sent && n.a.got != {}
    ensures n.b.sess.state == Up ==> n.a.got != {} && n.a.got <= n.b.sent && n.b.got != {}
    ensures TimersOk(n.a.sess) && TimersOk(n.b.sess)
  {
    ReachableOk(n, a, b);
  }

  // ---------------------------------------------------------------- the detection time over runs

  /** The packets that reached one end, in order. */
  function Heard(es: seq<Event>, atA: bool): seq<Packet> {
    if es == [] then []
    else (if es[0].Deliver? && es[0].atA == atA then [es[0].p] else []) + Heard(es[1..], atA)
  }

  /** The detection time a packet announces. */
  function Announced(p: Packet): nat {
    p.desiredMinTx * p.detectMult
  }

  /**
   The detection time after these packets: from the last poll on or, without a poll, from the first
   packet on, it is the first announced time that is not zero.
   */
  ghost predicate Detects(h: seq<Packet>, time: nat) {
    exists from: nat :: DetectsFrom(h, from, time)
  }

  ghost predicate DetectsFrom(h: seq<Packet>, from: nat, time: nat) {
    && (from == 0 || (from < |h| && h[from].poll))
    && (forall i :: from < i < |h| ==> !h[i].poll)
    && (if time == 0 then forall i :: from <= i < |h| ==> Announced(h[i]) == 0
        else exists i: nat :: from <= i && IsFirst(h, from, i, time))
  }

  predicate IsFirst(h: seq<Packet>, from: nat, i: nat, time: nat) {
    i < |h| && Announced(h[i]) == time && forall j :: from <= j < i ==> Announced(h[j]) == 0
  }

  lemma DetectsAppend(h: seq<Packet>, time: nat, p: Packet)
    requires Detects(h, time)
    ensures Detects(h + [p], if p.poll || time == 0 then Announced(p) else time)
  {
    var g, time' := h + [p], if p.poll || time == 0 then Announced(p) else time;
    var from: nat :| DetectsFrom(h, from, time);
    if p.poll {
      assert IsFirst(g, |h|, |h|, time');
      assert DetectsFrom(g, |h|, time');
    } else {
      if time == 0 {
        assert IsFirst(g, from, |h|, time');
      } else {
        var i: nat :| from <= i && IsFirst(h, from, i, time);
        assert IsFirst(g, from, i, time);
      }
      assert DetectsFrom(g, from, time');
    }
  }

  function Side(n: Net, atA: bool): End {
    if atA then n.a else n.b
  }

  lemma Assoc<T>(a: seq<T>, b: seq<T>, c: seq<T>)
    ensures (a + b) + c == a + (b + c)
  {
  }

  lemma HeardOne(e: Event, atA: bool)
    ensures Heard([e], atA) == if e.Deliver? && e.atA == atA then [e.p] else []
  {
    assert [e][1..] == [] && Heard([], atA) == [];
  }

  lemma StepDetects(n: Net, e: Event, atA: bool, h: seq<Packet>)
    requires Side(n, atA).sess.state != AdminDown && Detects(h, Side(n, atA).sess.detectTime)
    ensures Detects(h + Heard([e], atA), Side(Step(n, e), atA).sess.detectTime)
    ensures Side(Step(n, e), atA).sess.state != AdminDown
  {
    var s := Side(n, atA).sess;
    HeardOne(e, atA);
    if e.Deliver? && e.atA == atA {
      ReceiveSetsDetection(s, e.p, e.percent1, e.percent2);
      ReceiveState(s, e.p, e.percent1, e.percent2);
      DetectsAppend(h, s.detectTime, e.p);
    } else {
      assert h + [] == h;
    }
  }

  lemma HeardFirst(es: seq<Event>, atA: bool)
    requires es != []
    ensures Heard(es, atA) == Heard([es[0]], atA) + Heard(es[1..], atA)
  {
    assert [es[0]][1..] == [] && Heard([], atA) == [];
    var first := if es[0].Deliver? && es[0].atA == atA then [es[0].p] else [];
    assert Heard([es[0]], atA) == first + [];
  }

  lemma {:induction false} RunDetects(n: Net, es: seq<Event>, atA: bool, h: seq<Packet>)
    requires Side(n, atA).sess.state != AdminDown && Detects(h, Side(n, atA).sess.detectTime)
    ensures Detects(h + Heard(es, atA), Side(After(n, es), atA).sess.detectTime)
    decreases |es|
  {
    if es == [] {
      assert h + [] == h;
    } else {
      var first, more := Heard([es[0]], atA), Heard(es[1..], atA);
      StepDetects(n, es[0], atA, h);
      HeardFirst(es, atA);
      RunDetects(Step(n, es[0]), es[1..], atA, h + first);
      Assoc(h, first, more);
    }
  }

  /**
   In every run the detection time of an end is the interval times the multiplier of the last poll it
   heard or, while it heard none, of the first packet; a product of zero leaves the choice to the next
   packet.
   */
  lemma DetectionTimeOfRun(a: Session, b: Session, es: seq<Event>, atA: bool)
    requires New(a) && New(b) && IsRun(Start(a, b), es)
    ensures Detects(Heard(es, atA), Side(After(Start(a, b), es), atA).sess.detectTime)
  {
    var n := Start(a, b);
    FreshOk(a);
    FreshOk(b);
    assert DetectsFrom([], 0, 0);
    RunDetects(n, es, atA, []);
    assert [] + Heard(es, atA) == Heard(es, atA);
  }

  /**
   An end that is coming up watches its peer: its detection time is the multiplier of the peer times
   the interval the peer is configured with, or the one of all ends that are not Up, one second.
   */
  lemma ComingUpDetects(n: Net, a: Session, b: Session)
    requires New(a) && New(b) && Reachable(n, a, b)
    requires n.a.sess.state == Init || n.a.sess.state == Up
    ensures n.a.sess.detectTime in {b.detectMult * 1000000, b.detectMult * b.cfgDesiredMinTx}
    ensures b.cfgDesiredMinTx > 0 ==> n.a.sess.detectTime > 0
  {
    ReachableOk(n, a, b);
    var es :| IsRun(Start(a, b), es) && n == After(Start(a, b), es);
    RunConfig(Start(a, b), es);
  }

  lemma {:induction false} RunConfig(n: Net, es: seq<Event>)
    ensures SameConfig(n.a.sess, After(n, es).a.sess) && SameConfig(n.b.sess, After(n, es).b.sess)
    decreases |es|
  {
    if es != [] {
      StepConfig(Side(n, es[0].atA), es[0]);
      RunConfig(Step(n, es[0]), es[1..]);
    }
  }

  /** A peer that asks for no packets is sent none once it has been heard. */
  lemma SilentWhenAsked(n: Net, a: Session, b: Session)
    requires New(a) && New(b) && Reachable(n, a, b)
    ensures !MaySend(n.a.sess) <==> b.requiredMinRx == 0 && n.a.got != {}
  {
    ReachableOk(n, a, b);
    var es :| IsRun(Start(a, b), es) && n == After(Start(a, b), es);
    RunConfig(Start(a, b), es);
  }

  /** A Final is only sent by an end that has heard a Poll. */
  lemma FinalsAnswerPolls(n: Net, a: Session, b: Session, p: Packet)
    requires New(a) && New(b) && Reachable(n, a, b) && p in n.a.sent && p.final
    ensures exists q :: q in n.a.got && q.poll
  {
    ReachableOk(n, a, b);
    assert SentOk(n.a, n.b.sess.localDiscr, p);
  }

  predicate Registered(sessions: seq<Entry>, e: Entry) {
    && e in sessions
    && forall f :: f in sessions && (f.discr == e.discr || (f.dpid == e.dpid && f.ofport == e.ofport)) ==> f == e
  }

  /**
   Every packet in flight, of whatever age, passes the checks at the other end and is taken by the
   session it is meant for, when discriminators are unique and a port has one session.
   */
  lemma PacketsReachPeer(n: Net, a: Session, b: Session, p: Packet, sessions: seq<Entry>, e: Entry)
    requires New(a) && New(b) && Reachable(n, a, b)
    requires p in n.a.sent && Registered(sessions, e) && e.discr == n.b.sess.localDiscr
    ensures Taker(sessions, e.dpid, e.ofport, p) == Some(n.b.sess.localDiscr)
    ensures p.state == Init || p.state == Up ==> p.yourDiscr == n.b.sess.localDiscr
    ensures !(p.poll && p.final)
  {
    ReachableOk(n, a, b);
    assert SentOk(n.a, n.b.sess.localDiscr, p);
    FirstMatchFinds(sessions, e.dpid, e.ofport, p, e);
  }

  // ---------------------------------------------------------------- a poll that no Final ends

  /** The first packet of `a` reaches `b`, which answers. */
  function AnsweredPoll(a: Session): seq<Event> {
    [Send(true), Deliver(false, Sent(a), 75, 75), Send(false)]
  }

  /**
   A reachable state in which the poll sequence that every session starts with is over at `b`,
   although `b` has received no Final and has not even sent a Poll: its first packet answers the
   poll of `a`.
   */
  lemma PollEndsUnanswered(a: Session, b: Session)
    requires New(a) && New(b) && a.requiredMinRx > 0
    ensures b.isPolling
    ensures exists n :: Reachable(n, a, b) && n.b.sent != {} && PollLost(n.b)
  {
    var n0 := Start(a, b);
    var es := AnsweredPoll(a);
    var n1 := Step(n0, es[0]);
    var n2 := Step(n1, es[1]);
    var n3 := Step(n2, es[2]);
    FreshOk(a);
    FreshOk(b);
    DemandStopsNothing(a);
    HeardPoll(b, Sent(a));
    assert n1 == Net(End(AfterSend(a), {Sent(a)}, {}), End(b, {}, {}));
    assert n2.b == End(Receive(b, Sent(a), 75, 75), {}, {Sent(a)});
    assert n3.b == End(AfterSend(n2.b.sess), {Sent(n2.b.sess)}, {Sent(a)});
    RunFrom(n2, es[2], []);
    RunFrom(n1, es[1], [es[2]]);
    RunFrom(n0, es[0], [es[1], es[2]]);
    assert [es[1]] + [es[2]] == [es[1], es[2]] && [es[0]] + [es[1], es[2]] == es && [es[2]] + [] == [es[2]];
    assert Reachable(n3, a, b);
  }

  lemma RunFrom(n: Net, e: Event, es: seq<Event>)
    requires Enabled(n, e) && IsRun(Step(n, e), es)
    ensures IsRun(n, [e] + es) && After(n, [e] + es) == After(Step(n, e), es)
  {
    assert ([e] + es)[1..] == es;
  }

  lemma HeardPoll(s: Session, p: Packet)
    requires New(s) && p.poll && p.requiredMinRx > 0
    ensures var t := Receive(s, p, 75, 75); MaySend(t) && t.pendingFinal
  {
    FreshOk(s);
    ReceiveLearns(s, p, 75, 75);
    ReceiveTimers(s, p, 75, 75);
    DemandStopsNothing(Receive(s, p, 75, 75));
  }

  predicate PollLost(e: End) {
    && !e.sess.isPolling
    && (forall p :: p in e.got ==> !p.final)
    && (forall p :: p in e.sent ==> !p.poll)
  }

  // ---------------------------------------------------------------- both ends come Up

  /** One packet sent and delivered at once, in either direction. */
  function Exchange(n: Net, fromA: bool, percent1: nat, percent2: nat): Net {
    var sender := if fromA then n.a else n.b;
    if MaySend(sender.sess) then
      Step(Step(n, Send(fromA)), Deliver(!fromA, Sent(sender.sess), percent1, percent2))
    else n
  }

  lemma EndMaySend(me: End, peer: End)
    requires EndOk(me, peer) && peer.sess.requiredMinRx > 0
    ensures MaySend(me.sess)
  {
  }

  lemma ExchangeKeepsNet(n: Net, fromA: bool, percent1: nat, percent2: nat)
    requires NetOk(n)
    requires JitterOk((if fromA then n.b else n.a).sess.detectMult, percent1)
    requires JitterOk((if fromA then n.b else n.a).sess.detectMult, percent2)
    ensures NetOk(Exchange(n, fromA, percent1, percent2))
  {
    var sender := if fromA then n.a else n.b;
    if MaySend(sender.sess) {
      var p := Sent(sender.sess);
      var sent := Step(n, Send(fromA));
      StepKeepsNet(n, Send(fromA));
      assert p in (if fromA then sent.a else sent.b).sent;
      StepKeepsNet(sent, Deliver(!fromA, p, percent1, percent2));
    }
  }

  lemma ExchangeState(n: Net, fromA: bool, percent1: nat, percent2: nat)
    requires MaySend((if fromA then n.a else n.b).sess)
    ensures var m := Exchange(n, fromA, percent1, percent2);
      && SameConfig(n.a.sess, m.a.sess) && SameConfig(n.b.sess, m.b.sess)
      && m.a.sess.state == (if fromA then n.a.sess.state else NextState(n.a.sess.state, n.b.sess.state))
      && m.b.sess.state == (if fromA then NextState(n.b.sess.state, n.a.sess.state) else n.b.sess.state)
  {
    var sender := if fromA then n.a else n.b;
    var receiver := if fromA then n.b else n.a;
    ReceiveState(receiver.sess, Sent(sender.sess), percent1, percent2);
  }

  /** The states of both ends after `k` prompt deliveries, in turn, the first from A to B. */
  function Alternate(a: State, b: State, fromA: bool, k: nat): (State, State)
    decreases k
  {
    if k == 0 then (a, b)
    else if fromA then Alternate(a, NextState(b, a), false, k - 1)
    else Alternate(NextState(a, b), b, true, k - 1)
  }

  lemma {:induction false} UpStaysUp(fromA: bool, k: nat)
    ensures Alternate(Up, Up, fromA, k) == (Up, Up)
    decreases k
  {
    if k > 0 {
      UpStaysUp(!fromA, k - 1);
    }
  }

  /** Five prompt deliveries bring both ends Up from whatever states they are in; four do not. */
  lemma FiveDeliveries(k: nat)
    ensures (forall a, b :: a != AdminDown && b != AdminDown ==> Alternate(a, b, true, k) == (Up, Up)) <==> k >= 5
  {
    if k >= 5 {
      forall a, b | a != AdminDown && b != AdminDown
        ensures Alternate(a, b, true, k) == (Up, Up)
      {
        var b1 := NextState(b, a);
        var a2 := NextState(a, b1);
        var b3 := NextState(b1, a2);
        var a4 := NextState(a2, b3);
        var b5 := NextState(b3, a4);
        assert Alternate(a2, b1, true, k - 2) == Alternate(a, b, true, k);
        assert Alternate(a4, b3, true, k - 4) == Alternate(a2, b1, true, k - 2);
        assert Alternate(a4, b5, false, k - 5) == Alternate(a4, b3, true, k - 4);
        UpStaysUp(false, k - 5);
      }
    } else {
      assert Alternate(Up, Down, true, 4) == (Up, Init);
      assert Alternate(Up, Down, true, 3) == (Down, Init);
      assert Alternate(Up, Down, true, k) != (Up, Up);
    }
  }

  /** `Alternate`, with the packets and sessions themselves. */
  function Exchanges(n: Net, fromA: bool, jitter: seq<(nat, nat)>): Net
    decreases |jitter|
  {
    if jitter == [] then n
    else Exchanges(Exchange(n, fromA, jitter[0].0, jitter[0].1), !fromA, jitter[1..])
  }

  predicate JitterFits(n: Net, j: (nat, nat)) {
    && JitterOk(n.a.sess.detectMult, j.0) && JitterOk(n.a.sess.detectMult, j.1)
    && JitterOk(n.b.sess.detectMult, j.0) && JitterOk(n.b.sess.detectMult, j.1)
  }

  lemma {:induction false} ExchangesState(n: Net, fromA: bool, jitter: seq<(nat, nat)>)
    requires NetOk(n) && n.a.sess.requiredMinRx > 0 && n.b.sess.requiredMinRx > 0
    requires forall j :: j in jitter ==> JitterFits(n, j)
    ensures var m := Exchanges(n, fromA, jitter);
      NetOk(m)
      && (m.a.sess.state, m.b.sess.state) == Alternate(n.a.sess.state, n.b.sess.state, fromA, |jitter|)
    decreases |jitter|
  {
    if jitter != [] {
      var j := jitter[0];
      assert JitterFits(n, j);
      EndMaySend(n.a, n.b);
      EndMaySend(n.b, n.a);
      ExchangeKeepsNet(n, fromA, j.0, j.1);
      ExchangeState(n, fromA, j.0, j.1);
      var m := Exchange(n, fromA, j.0, j.1);
      forall i | i in jitter[1..]
        ensures JitterFits(m, i)
      {
        assert JitterFits(n, i);
      }
      ExchangesState(m, !fromA, jitter[1..]);
    }
  }

  /**
   From every reachable state of two sessions that let their peer send, five prompt deliveries in
   turn bring both Up, and every further one leaves them Up.
   */
  lemma BothComeUp(n: Net, a: Session, b: Session, jitter: seq<(nat, nat)>)
    requires New(a) && New(b) && Reachable(n, a, b)
    requires n.a.sess.requiredMinRx > 0 && n.b.sess.requiredMinRx > 0
    requires |jitter| >= 5 && forall j :: j in jitter ==> JitterFits(n, j)
    ensures var m := Exchanges(n, true, jitter); m.a.sess.state == Up && m.b.sess.state == Up
  {
    ReachableOk(n, a, b);
    ExchangesState(n, true, jitter);
    FiveDeliveries(|jitter|);
  }

  // ---------------------------------------------------------------- the session as the code keeps it

  class BfdSession {
    const localDiscr: nat
    const requiredMinRx: nat
    const detectMult: nat
    const cfgDesiredMinTx: nat
    var state: State
    var remoteSessionState: State
    var remoteDiscr: nat
    var localDiag: Diag
    var desiredMinTx: nat
    var remoteMinRx: int
    var remoteDemand: bool
    var detectTime: nat
    var xmitPeriod: real
    var isPolling: bool
    var pendingFinal: bool
    var enableSend: bool

    ghost function Value(): Session
      reads this
    {
      Session(state, remoteSessionState, localDiscr, remoteDiscr, localDiag, desiredMinTx, requiredMinRx,
              remoteMinRx, remoteDemand, detectMult, cfgDesiredMinTx, detectTime, xmitPeriod, isPolling,
              pendingFinal, enableSend)
    }

    constructor (discr: nat, mult: nat, desired: nat, minRx: nat, percent: nat)
      ensures Value() == Fresh(discr, mult, desired, minRx, percent)
      ensures state == Down && remoteDiscr == 0 && localDiag == NoDiag && detectTime == 0
      ensures localDiscr == discr && detectMult == mult && cfgDesiredMinTx == desired && requiredMinRx == minRx
      ensures desiredMinTx == 1000000 && remoteMinRx == -1 && isPolling && !pendingFinal && enableSend
      ensures xmitPeriod == 1000000.0 * (percent as real / 100.0)
    {
      state, remoteSessionState := Down, Down;
      localDiscr, remoteDiscr, localDiag := discr, 0, NoDiag;
      desiredMinTx, requiredMinRx, remoteMinRx := ONE_SECOND, minRx, -1;
      remoteDemand, detectMult, cfgDesiredMinTx, detectTime := false, mult, desired, 0;
      xmitPeriod := 0.0;
      isPolling, pendingFinal, enableSend := true, false, true;
      new;
      UpdateXmitPeriod(percent);
    }

    /** `percent` is the random number the period is scaled with. */
    method UpdateXmitPeriod(percent: nat)
      modifies this`xmitPeriod
      ensures Value() == WithPeriod(old(Value()), percent)
    {
      var longest: int := remoteMinRx;
      if desiredMinTx > remoteMinRx {
        longest := desiredMinTx;
      }
      xmitPeriod := Scaled(longest, percent);
    }

    method SetState(newState: State, diag: Option<Diag>, percent: nat)
      modifies this
      ensures Value() == Enter(old(Value()), newState, diag, percent)
    {
      state := newState;
      if newState == Down {
        if diag.Some? {
          localDiag := diag.value;
        }
        desiredMinTx := ONE_SECOND;
        isPolling := true;
        UpdateXmitPeriod(percent);
      } else if newState == Up {
        desiredMinTx := cfgDesiredMinTx;
        isPolling := true;
        UpdateXmitPeriod(percent);
      }
    }

    method Recv(p: Packet, percent1: nat, percent2: nat)
      modifies this
      ensures Value() == Receive(old(Value()), p, percent1, percent2)
    {
      RecvRemote(p, percent1);
      if state == AdminDown {
        return;
      }
      RecvState(p.state, percent2);
      label changed:
      if remoteDemand && state == Up && remoteSessionState == Up {
        enableSend := false;
      }
      if !remoteDemand || state != Up || remoteSessionState != Up {
        if !enableSend {
          enableSend := true;
        }
      }
      assert Value() == TakeDemand(old@changed(Value()));
      RecvTimes(p);
    }

    /** The first part of `recv`: what the packet says of the peer. */
    method RecvRemote(p: Packet, percent: nat)
      modifies this
      ensures Value() == TakeRemote(old(Value()), p, percent)
    {
      remoteDiscr := p.myDiscr;
      remoteDemand := p.demand;
      if remoteMinRx != p.requiredMinRx {
        remoteMinRx := p.requiredMinRx;
        UpdateXmitPeriod(percent);
      }
      if p.final && isPolling {
        isPolling := false;
      }
    }

    /** The second part: the session state. */
    method RecvState(received: State, percent: nat)
      requires state != AdminDown
      modifies this
      ensures Value() == ChangeState(old(Value()), received, percent)
    {
      if received == AdminDown {
        if state != Down {
          SetState(Down, Some(NeighborSignaledDown), percent);
        }
      } else if state == Down {
        if received == Down {
          SetState(Init, None, percent);
        } else if received == Init {
          SetState(Up, None, percent);
        }
      } else if state == Init {
        if received == Init || received == Up {
          SetState(Up, None, percent);
        }
      } else if received == Down {
        SetState(Down, Some(NeighborSignaledDown), percent);
      }
    }

    /** The last part: the detection time and the poll to answer. */
    method RecvTimes(p: Packet)
      modifies this
      ensures Value() == TakeTimes(old(Value()), p)
    {
      if detectTime == 0 {
        detectTime := p.desiredMinTx * p.detectMult;
      }
      if p.poll {
        pendingFinal := true;
        detectTime := p.desiredMinTx * p.detectMult;
      }
    }

    /** The wait for packets in `_recv_timeout_loop` ended without one. */
    method RecvTimeout(percent: nat)
      modifies this
      ensures Value() == TimeOut(old(Value()), percent)
    {
      if state != Down && state != AdminDown {
        SetState(Down, Some(DetectTimeExpired), percent);
      }
    }

    /** One turn of `_send_loop`, with `_send`. */
    method SendOnce() returns (out: Option<Packet>)
      modifies this
      ensures MaySend(old(Value())) ==> out == Some(Sent(old(Value()))) && Value() == AfterSend(old(Value()))
      ensures !MaySend(old(Value())) ==> out == None && Value() == old(Value())
      ensures out.Some? ==> var p := out.value;
        && p.state == state && p.diag == localDiag && p.myDiscr == localDiscr && p.yourDiscr == remoteDiscr
        && p.desiredMinTx == desiredMinTx && p.requiredMinRx == requiredMinRx && p.detectMult == detectMult
        && p.final == old(pendingFinal) && p.poll == (old(isPolling) && !p.final) && !p.demand && !p.auth
        && p.ttl == 255 && p.ver == 1 && p.length == 24
      ensures out.Some? ==> !pendingFinal && isPolling == (old(isPolling) && !old(pendingFinal))
    {
      if !enableSend || remoteMinRx == 0 {
        return None;
      }
      if remoteDemand && state == Up && remoteSessionState == Up && !isPolling {
        return None;
      }
      var final, poll := false, false;
      if pendingFinal {
        final := true;
        pendingFinal := false;
        isPolling := false;
      }
      if isPolling {
        poll := true;
      }
      out := Some(Packet(255, 1, 24, false, false, localDiag, state, poll, final, false, detectMult,
                         localDiscr, remoteDiscr, desiredMinTx, requiredMinRx));
    }
  }
}
