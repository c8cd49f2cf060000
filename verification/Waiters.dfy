/**
 Requests for multipart statistics: `send_stats_request` of `ofctl_utils.py` waits for the parts that
 `stats_reply_handler` of `ofctl_rest.py` collects, and either of them ends the registration.
 */
module Waiters {

  const MAX_XID: nat := 0xffff_ffff

  /** A switch and a transaction id. */
  datatype Key = Key(dpid: nat, xid: nat)

  type Part = nat

  /**
   A call of `send_stats_request`: `Waiting` with the number of parts it had seen before this wait,
   or ended, with a `KeyError` if its registration was gone.
   */
  datatype Phase = Waiting(seen: nat) | Returned | Crashed

  datatype Call = Call(key: Key, msgs: seq<Part>, lockSet: bool, phase: Phase)

  /** `waiters` maps what is outstanding to the call that waits for it. */
  datatype State = State(waiters: map<Key, nat>, calls: map<nat, Call>)

  /** `more`: the flag of a reply that is not the last of its request. */
  datatype Event = Request(id: nat, key: Key) | Reply(key: Key, part: Part, more: bool) | Wake(id: nat)

  function Init(): State {
    State(map[], map[])
  }

  function OnRequest(s: State, id: nat, key: Key): State {
    State(s.waiters[key := id], s.calls[id := Call(key, [], false, Waiting(0))])
  }

  function OnReply(s: State, key: Key, part: Part, more: bool): State
    requires key in s.waiters ==> s.waiters[key] in s.calls
  {
    if key !in s.waiters then s
    else
      var id := s.waiters[key];
      var c := s.calls[id];
      State(if more then s.waiters else s.waiters - {key},
            s.calls[id := c.(msgs := c.msgs + [part], lockSet := c.lockSet || !more)])
  }

  /** `lock.wait` returned, because the lock was set or because of the timeout. */
  function OnWake(s: State, id: nat): State
    requires id in s.calls && s.calls[id].phase.Waiting?
  {
    var c := s.calls[id];
    if |c.msgs| > c.phase.seen then
      s.(calls := s.calls[id := c.(phase := Waiting(|c.msgs|))])
    else if c.lockSet then
      s.(calls := s.calls[id := c.(phase := Returned)])
    else if c.key in s.waiters then
      State(s.waiters - {c.key}, s.calls[id := c.(phase := Returned)])
    else
      s.(calls := s.calls[id := c.(phase := Crashed)])
  }

  predicate Enabled(s: State, e: Event) {
    match e
    case Request(id, _) => id !in s.calls
    case Reply(key, _, _) => key in s.waiters ==> s.waiters[key] in s.calls
    case Wake(id) => id in s.calls && s.calls[id].phase.Waiting?
  }

  function Step(s: State, e: Event): State
    requires Enabled(s, e)
  {
    match e
    case Request(id, key) => OnRequest(s, id, key)
    case Reply(key, part, more) => OnReply(s, key, part, more)
    case Wake(id) => OnWake(s, id)
  }

  predicate IsRun(es: seq<Event>)
    decreases |es|, 0
  {
    es == [] ||
    (IsRun(es[..|es| - 1]) && Enabled(After(es[..|es| - 1]), es[|es| - 1]))
  }

  function After(es: seq<Event>): State
    requires IsRun(es)
    decreases |es|, 1
  {
    if es == [] then Init() else Step(After(es[..|es| - 1]), es[|es| - 1])
  }

  /** No request reuses a transaction id that is outstanding at the same switch. */
  predicate DistinctRun(es: seq<Event>)
    requires IsRun(es)
  {
    es == [] ||
    (var front, e := es[..|es| - 1], es[|es| - 1];
     DistinctRun(front) && (e.Request? ==> e.key !in After(front).waiters))
  }

  // ---------------------------------------------------------------- the registration

  /** A call is registered under its key exactly while it waits and its lock is not set. */
  ghost predicate Registered(s: State) {
    && (forall key :: key in s.waiters ==> s.waiters[key] in s.calls && Open(s.calls[s.waiters[key]], key))
    && (forall id :: id in s.calls && s.calls[id].phase.Waiting? && !s.calls[id].lockSet ==>
          s.calls[id].key in s.waiters && s.waiters[s.calls[id].key] == id)
    && (forall id :: id in s.calls ==> !s.calls[id].phase.Crashed?)
  }

  predicate Open(c: Call, key: Key) {
    c.key == key && c.phase.Waiting? && !c.lockSet
  }

  lemma RequestRegisters(s: State, id: nat, key: Key)
    requires Registered(s) && id !in s.calls && key !in s.waiters
    ensures Registered(OnRequest(s, id, key))
  {
  }

  lemma ReplyRegisters(s: State, key: Key, part: Part, more: bool)
    requires Registered(s)
    ensures Registered(OnReply(s, key, part, more))
  {
  }

  lemma WakeRegisters(s: State, id: nat)
    requires Registered(s) && Enabled(s, Wake(id))
    ensures Registered(OnWake(s, id))
  {
  }

  /**
   While outstanding ids are distinct, exactly one side ends each registration: the handler with the
   last part, or the call when it gives up; no call finds its registration gone, and none leaves one.
   */
  lemma {:induction false} OneSideDeletes(es: seq<Event>)
    requires IsRun(es) && DistinctRun(es)
    ensures Registered(After(es))
    ensures forall id :: id in After(es).calls ==> After(es).calls[id].phase != Crashed
    ensures forall key :: key in After(es).waiters ==> After(es).calls[After(es).waiters[key]].phase.Waiting?
  {
    if es != [] {
      var front := es[..|es| - 1];
      OneSideDeletes(front);
      var s := After(front);
      match es[|es| - 1] {
        case Request(id, key) => RequestRegisters(s, id, key);
        case Reply(key, part, more) => ReplyRegisters(s, key, part, more);
        case Wake(id) => WakeRegisters(s, id);
      }
    }
  }

  lemma Extend(es: seq<Event>, e: Event)
    requires IsRun(es) && Enabled(After(es), e)
    ensures IsRun(es + [e]) && After(es + [e]) == Step(After(es), e)
    ensures DistinctRun(es + [e]) <==> DistinctRun(es) && (e.Request? ==> e.key !in After(es).waiters)
  {
    assert (es + [e])[..|es|] == es;
  }

  /** The same id outstanding twice: one of the two calls fails. */
  lemma SharedXidCrashes(key: Key)
    ensures var es := [Request(0, key)] + [Request(1, key)] + [Wake(0)] + [Wake(1)];
      IsRun(es) && !DistinctRun(es) && After(es).calls[1].phase == Crashed
  {
    var one := [Request(0, key)];
    assert one == [] + [Request(0, key)];
    Extend([], Request(0, key));
    Extend(one, Request(1, key));
    var two := one + [Request(1, key)];
    Extend(two, Wake(0));
    Extend(two + [Wake(0)], Wake(1));
  }

  /** `set_xid` gives no id twice in less than 2^32 calls. */
  function SetXid(xid: nat): nat {
    (xid + 1) % (MAX_XID + 1)
  }

  function XidAfter(xid: nat, calls: nat): nat {
    if calls == 0 then xid else SetXid(XidAfter(xid, calls - 1))
  }

  lemma {:induction false} XidAfterValue(xid: nat, calls: nat) returns (turns: nat)
    requires xid <= MAX_XID
    ensures XidAfter(xid, calls) <= MAX_XID
    ensures XidAfter(xid, calls) == xid + calls - turns * 0x1_0000_0000
  {
    if calls == 0 {
      turns := 0;
    } else {
      turns := XidAfterValue(xid, calls - 1);
      if XidAfter(xid, calls - 1) == MAX_XID {
        turns := turns + 1;
      }
    }
  }

  lemma XidsDistinct(xid: nat, i: nat, j: nat)
    requires xid <= MAX_XID && i < j <= i + MAX_XID
    ensures XidAfter(xid, i) != XidAfter(xid, j)
  {
    var turnsI := XidAfterValue(xid, i);
    var turnsJ := XidAfterValue(xid, j);
    if turnsJ > turnsI {
      assert (turnsJ - turnsI) * 0x1_0000_0000 >= 0x1_0000_0000;
    } else {
      assert (turnsI - turnsJ) * 0x1_0000_0000 >= 0;
    }
  }

  // ---------------------------------------------------------------- what a call receives

  /** The parts with the call's key that arrived while it was registered, in order. */
  function PartsFor(es: seq<Event>, id: nat): seq<Part>
    requires IsRun(es)
  {
    if es == [] then []
    else
      var front, e := es[..|es| - 1], es[|es| - 1];
      PartsFor(front, id)
      + if e.Reply? && e.key in After(front).waiters && After(front).waiters[e.key] == id then [e.part] else []
  }

  lemma StepParts(s: State, e: Event, id: nat)
    requires Enabled(s, e)
    ensures var more := if e.Reply? && e.key in s.waiters && s.waiters[e.key] == id then [e.part] else [];
      if id in s.calls then id in Step(s, e).calls && Step(s, e).calls[id].msgs == s.calls[id].msgs + more
      else more == [] && (id in Step(s, e).calls ==> Step(s, e).calls[id].msgs == [])
  {
  }

  lemma {:induction false} ReceivesItsParts(es: seq<Event>, id: nat)
    requires IsRun(es)
    ensures if id in After(es).calls then After(es).calls[id].msgs == PartsFor(es, id) else PartsFor(es, id) == []
  {
    if es != [] {
      ReceivesItsParts(es[..|es| - 1], id);
      StepParts(After(es[..|es| - 1]), es[|es| - 1], id);
    }
  }

  datatype Collected = Collected(parts: seq<Part>, last: bool)

  /** The parts that answer a key, up to the last one. */
  function Answer(es: seq<Event>, key: Key): Collected {
    if es == [] then Collected([], false)
    else
      var front, e := Answer(es[..|es| - 1], key), es[|es| - 1];
      if front.last || !e.Reply? || e.key != key then front
      else Collected(front.parts + [e.part], !e.more)
  }

  /**
   A call that still waits, or whose lock is set, has received every part of the answer that the
   switch sent since the request, in order, and nothing else; its lock is set exactly when the last
   part is among them.
   */
  lemma {:induction false} ReceivesTheAnswer(es: seq<Event>, i: nat)
    requires IsRun(es) && DistinctRun(es) && i < |es| && es[i].Request?
    ensures es[i].id in After(es).calls
    ensures var c := After(es).calls[es[i].id];
      c.key == es[i].key &&
      (c.phase.Waiting? || c.lockSet ==>
        Collected(c.msgs, c.lockSet) == Answer(es[i + 1..], c.key))
  {
    var front, e := es[..|es| - 1], es[|es| - 1];
    OneSideDeletes(front);
    if i == |es| - 1 {
      assert es[i + 1..] == [];
    } else {
      ReceivesTheAnswer(front, i);
      assert es[i + 1..][..|es[i + 1..]| - 1] == front[i + 1..];
      AnswerStep(After(front), e, es[i].id, front[i + 1..]);
    }
  }

  lemma AnswerStep(s: State, e: Event, id: nat, since: seq<Event>)
    requires Registered(s) && Enabled(s, e) && id in s.calls && (e.Request? ==> e.key !in s.waiters)
    requires var c := s.calls[id];
      c.phase.Waiting? || c.lockSet ==> Collected(c.msgs, c.lockSet) == Answer(since, c.key)
    ensures id in Step(s, e).calls
    ensures var c := Step(s, e).calls[id];
      c.key == s.calls[id].key &&
      (c.phase.Waiting? || c.lockSet ==>
        Collected(c.msgs, c.lockSet) == Answer(since + [e], c.key))
  {
    assert (since + [e])[..|since|] == since;
  }

  function Wakes(es: seq<Event>, id: nat): nat {
    if es == [] then 0 else Wakes(es[..|es| - 1], id) + if es[|es| - 1] == Wake(id) then 1 else 0
  }

  /** A call wakes up once more than it received parts, at most: it does not wait for ever. */
  lemma {:induction false} WakesAreBounded(es: seq<Event>, id: nat)
    requires IsRun(es)
    ensures if id in After(es).calls then
        var c := After(es).calls[id];
        if c.phase.Waiting? then Wakes(es, id) <= c.phase.seen <= |c.msgs| else Wakes(es, id) <= |c.msgs| + 1
      else Wakes(es, id) == 0
  {
    if es != [] {
      WakesAreBounded(es[..|es| - 1], id);
    }
  }

  // ---------------------------------------------------------------- when a call gives up

  lemma {:induction false} PrefixIsRun(es: seq<Event>, n: nat)
    requires IsRun(es) && n <= |es|
    ensures IsRun(es[..n])
  {
    if n == |es| {
      assert es[..n] == es;
    } else {
      PrefixIsRun(es[..|es| - 1], n);
      assert es[..|es| - 1][..n] == es[..n];
    }
  }

  /** The call began its present wait, or its first one, with this event. */
  predicate LastWait(es: seq<Event>, w: nat, id: nat) {
    && w < |es|
    && (es[w] == Wake(id) || (es[w].Request? && es[w].id == id))
    && forall j :: w < j < |es| ==> es[j] != Wake(id)
  }

  lemma {:induction false} SeenBeforeWait(es: seq<Event>, w: nat, id: nat)
    requires IsRun(es) && LastWait(es, w, id) && id in After(es).calls && After(es).calls[id].phase.Waiting?
    ensures IsRun(es[..w]) && After(es).calls[id].phase.seen == |PartsFor(es[..w], id)|
  {
    PrefixIsRun(es, w);
    var front := es[..|es| - 1];
    if w == |es| - 1 {
      ReceivesItsParts(front, id);
    } else {
      CalledSince(es, w, |es| - 1, id);
      SeenBeforeWait(front, w, id);
      assert front[..w] == es[..w];
    }
  }

  lemma {:induction false} CalledSince(es: seq<Event>, w: nat, n: nat, id: nat)
    requires IsRun(es) && LastWait(es, w, id) && w < n <= |es|
    ensures IsRun(es[..n]) && id in After(es[..n]).calls
  {
    PrefixIsRun(es, n);
    assert es[..n][..n - 1] == es[..n - 1];
    if n > w + 1 {
      CalledSince(es, w, n - 1, id);
    }
  }

  /**
   A call that wakes up goes on waiting if and only if some part reached it since its last wait began;
   it never gives up while parts keep coming.
   */
  lemma GivesUpWhenSilent(es: seq<Event>, w: nat, id: nat)
    requires IsRun(es + [Wake(id)]) && LastWait(es, w, id)
    ensures IsRun(es) && IsRun(es[..w])
    ensures After(es + [Wake(id)]).calls[id].phase.Waiting? <==> |PartsFor(es, id)| > |PartsFor(es[..w], id)|
  {
    assert (es + [Wake(id)])[..|es|] == es;
    SeenBeforeWait(es, w, id);
    ReceivesItsParts(es, id);
  }

  // ---------------------------------------------------------------- both sides as the code runs them

  class RestStatsApi {
    var waiters: map<Key, nat>
    var calls: map<nat, Call>

    ghost function Value(): State
      reads this
    {
      State(waiters, calls)
    }

    constructor ()
      ensures Value() == Init()
    {
      waiters, calls := map[], map[];
    }

    /** `send_stats_request` up to its first wait. */
    method SendStatsRequest(id: nat, key: Key)
      requires id !in calls
      modifies this
      ensures Value() == Step(old(Value()), Request(id, key))
    {
      calls := calls[id := Call(key, [], false, Waiting(0))];
      waiters := waiters[key := id];
    }

    method StatsReplyHandler(key: Key, part: Part, more: bool)
      requires Registered(Value())
      modifies this
      ensures Value() == Step(old(Value()), Reply(key, part, more))
    {
      if key !in waiters {
        return;
      }
      var id := waiters[key];
      var c := calls[id];
      c := c.(msgs := c.msgs + [part]);
      if !more {
        waiters := waiters - {key};
        c := c.(lockSet := true);
      }
      calls := calls[id := c];
    }

    /** `send_stats_request` from the return of a wait to the next wait, or to its end. */
    method AfterWait(id: nat) returns (ended: bool)
      requires Registered(Value()) && id in calls && calls[id].phase.Waiting?
      modifies this
      ensures Value() == Step(old(Value()), Wake(id))
      ensures ended <==> calls[id].phase == Returned
    {
      var c := calls[id];
      var current := |c.msgs|;
      ended := current <= c.phase.seen;
      if !ended {
        calls := calls[id := c.(phase := Waiting(current))];
        return;
      }
      if !c.lockSet {
        waiters := waiters - {c.key};
      }
      calls := calls[id := c.(phase := Returned)];
    }
  }
}
