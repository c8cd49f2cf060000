/**
 The bounded send queue of a connection in `controller.py`: any number of threads call `send`, one
 thread empties the queue onto the socket, and its end must leave no caller behind. Without the
 shutdown it is also the event queue of an application in `app_manager.py`.
 */
module SendQueue {
  import opened Wrappers

  /** What one call of `send` wants to send; each call has its own `id`. */
  datatype Msg = Msg(id: nat, close: bool)

  /** Where a call of `send` is. */
  datatype Call = Waiting(close: bool) | Holding(close: bool) | Returned(enqueued: bool)

  /** Where the send loop is; it leaves the processor only in `get` and in `sendall`. */
  datatype Loop = Top | InGet | Sending(msg: Msg) | Ended

  /**
   `free`: permits of the semaphore. `open`: `send_q` is not None. The last four fields record what
   was ever put into the queue, what left through the socket, what failed there, and what was
   drained.
   */
  datatype State = State(
    cap: nat, free: nat, open: bool, dead: bool, queue: seq<Msg>, calls: map<nat, Call>, loop: Loop,
    log: seq<Msg>, sent: seq<Msg>, failed: seq<Msg>, drained: seq<Msg>)

  function Start(cap: nat): State {
    State(cap, cap, true, false, [], map[], Top, [], [], [], [])
  }

  datatype Event =
    | CallSend(id: nat, close: bool)
    | Acquire(id: nat)
    | Finish(id: nat)
    | Check
    | Get
    | SentAll
    | SendFails
    | Kill
    | Die

  predicate Enabled(s: State, e: Event) {
    match e
    case CallSend(id, _) => id !in s.calls
    case Acquire(id) => id in s.calls && s.calls[id].Waiting? && s.free > 0
    case Finish(id) => id in s.calls && s.calls[id].Holding?
    case Check => s.loop.Top?
    case Get => s.loop.InGet? && s.queue != []
    case SentAll => s.loop.Sending?
    case SendFails => s.loop.Sending?
    case Kill => s.loop.InGet?
    case Die => true
  }

  /** The `finally` part of the send loop: no queue any more, and a permit for each entry of the old one. */
  function Shutdown(s: State): State {
    s.(open := false, loop := Ended, free := s.free + |s.queue|, drained := s.queue, queue := [])
  }

  function Step(s: State, e: Event): State
    requires Enabled(s, e)
  {
    match e
    case CallSend(id, close) => s.(calls := s.calls[id := Waiting(close)])
    case Acquire(id) => s.(free := s.free - 1, calls := s.calls[id := Holding(s.calls[id].close)])
    case Finish(id) =>
      var m := Msg(id, s.calls[id].close);
      if s.open then
        s.(queue := s.queue + [m], log := s.log + [m], calls := s.calls[id := Returned(true)])
      else
        s.(free := s.free + 1, calls := s.calls[id := Returned(false)])
    case Check => if s.dead then Shutdown(s) else s.(loop := InGet)
    case Get => s.(free := s.free + 1, queue := s.queue[1..], loop := Sending(s.queue[0]))
    case SentAll =>
      var t := s.(sent := s.sent + [s.loop.msg], loop := Top);
      if s.loop.msg.close then Shutdown(t) else t
    case SendFails => Shutdown(s.(failed := [s.loop.msg], loop := Top))
    case Kill => Shutdown(s)
    case Die => s.(dead := true)
  }

  // ---------------------------------------------------------------- permits

  function Holders(calls: map<nat, Call>): set<nat> {
    set id | id in calls && calls[id].Holding?
  }

  /** Every permit is free, stands for a queued message, or is held by a caller. */
  ghost predicate Permits(s: State) {
    && s.free + |s.queue| + |Holders(s.calls)| == s.cap
    && (s.open <==> s.loop != Ended)
    && (!s.open ==> s.queue == [])
  }

  lemma HoldersUpdate(calls: map<nat, Call>, id: nat, c: Call)
    ensures Holders(calls[id := c]) == if c.Holding? then Holders(calls) + {id} else Holders(calls) - {id}
  {
  }

  lemma CallPermits(s: State, id: nat, close: bool)
    requires Permits(s) && Enabled(s, CallSend(id, close))
    ensures Permits(Step(s, CallSend(id, close)))
  {
    HoldersUpdate(s.calls, id, Waiting(close));
    assert Holders(s.calls) - {id} == Holders(s.calls);
  }

  lemma AcquirePermits(s: State, id: nat)
    requires Permits(s) && Enabled(s, Acquire(id))
    ensures Permits(Step(s, Acquire(id)))
  {
    HoldersUpdate(s.calls, id, Holding(s.calls[id].close));
    assert id !in Holders(s.calls);
  }

  lemma FinishPermits(s: State, id: nat)
    requires Permits(s) && Enabled(s, Finish(id))
    ensures Permits(Step(s, Finish(id)))
  {
    HoldersUpdate(s.calls, id, Returned(s.open));
    assert id in Holders(s.calls);
  }

  lemma StepKeepsPermits(s: State, e: Event)
    requires Permits(s) && Enabled(s, e)
    ensures Permits(Step(s, e))
  {
    match e
    case CallSend(id, close) => CallPermits(s, id, close);
    case Acquire(id) => AcquirePermits(s, id);
    case Finish(id) => FinishPermits(s, id);
    case Check =>
    case Get =>
    case SentAll =>
    case SendFails =>
    case Kill =>
    case Die =>
  }

  /** A caller with a permit finds room, so `put` never blocks. */
  lemma PutFindsRoom(s: State, id: nat)
    requires Permits(s) && Enabled(s, Finish(id))
    ensures |s.queue| < s.cap
  {
    assert id in Holders(s.calls);
    assert |Holders(s.calls)| > 0;
  }

  /**
   After the shutdown no permit is lost: the free ones and the held ones make up the capacity, so
   as long as some call has not returned, one of them can go on.
   */
  lemma NoneStuckAfterShutdown(s: State)
    requires Permits(s) && s.loop == Ended && s.cap > 0
    ensures s.free + |Holders(s.calls)| == s.cap
    ensures (exists id :: id in s.calls && !s.calls[id].Returned?) ==>
      exists id :: Enabled(s, Acquire(id)) || Enabled(s, Finish(id))
    ensures (forall id :: id in s.calls ==> s.calls[id].Returned?) ==> s.free == s.cap
  {
    if id :| id in s.calls && !s.calls[id].Returned? {
      if s.free > 0 && s.calls[id].Waiting? {
        assert Enabled(s, Acquire(id));
      } else if s.calls[id].Holding? {
        assert Enabled(s, Finish(id));
      } else {
        assert Holders(s.calls) != {};
        var h :| h in Holders(s.calls);
        assert Enabled(s, Finish(h));
      }
    }
    if forall id :: id in s.calls ==> s.calls[id].Returned? {
      assert Holders(s.calls) == {};
    }
  }

  // ---------------------------------------------------------------- messages

  /** What the send loop took out of the queue, in order. */
  function TakenOut(s: State): seq<Msg> {
    s.sent + if s.loop.Sending? then [s.loop.msg] else s.failed
  }

  /** Everything ever queued left in order, or is in the queue, or was drained from it. */
  ghost predicate Ordered(s: State) {
    && s.log == TakenOut(s) + s.drained + s.queue
    && (s.loop != Ended ==> s.failed == [] && s.drained == [])
  }

  lemma ShutdownOrder(s: State)
    requires s.log == s.sent + s.failed + s.queue
    ensures Ordered(Shutdown(s))
  {
    assert s.queue + [] == s.queue;
  }

  lemma FinishOrder(s: State, id: nat)
    requires Ordered(s) && Permits(s) && Enabled(s, Finish(id))
    ensures Ordered(Step(s, Finish(id)))
  {
    if s.open {
      var m := Msg(id, s.calls[id].close);
      assert TakenOut(s) + s.drained + (s.queue + [m]) == (TakenOut(s) + s.drained + s.queue) + [m];
    }
  }

  lemma GetOrder(s: State)
    requires Ordered(s) && Enabled(s, Get)
    ensures Ordered(Step(s, Get))
  {
    assert s.queue == [s.queue[0]] + s.queue[1..];
    assert s.sent + ([s.queue[0]] + s.queue[1..]) == (s.sent + [s.queue[0]]) + s.queue[1..];
  }

  lemma SentOrder(s: State)
    requires Ordered(s) && Enabled(s, SentAll)
    ensures Ordered(Step(s, SentAll))
  {
    var t := s.(sent := s.sent + [s.loop.msg], loop := Top);
    assert t.log == t.sent + t.failed + t.queue;
    if s.loop.msg.close {
      ShutdownOrder(t);
    }
  }

  lemma StepKeepsOrder(s: State, e: Event)
    requires Ordered(s) && Permits(s) && Enabled(s, e)
    ensures Ordered(Step(s, e))
  {
    match e
    case CallSend(_, _) =>
    case Acquire(_) =>
    case Finish(id) => FinishOrder(s, id);
    case Check =>
      if s.dead {
        ShutdownOrder(s);
      }
    case Get => GetOrder(s);
    case SentAll => SentOrder(s);
    case SendFails => ShutdownOrder(s.(failed := [s.loop.msg], loop := Top));
    case Kill => ShutdownOrder(s);
    case Die =>
  }

  /** A call has put its message into the queue once if it returned True, and not at all otherwise. */
  ghost predicate EnqueuedOnce(log: seq<Msg>, calls: map<nat, Call>) {
    && (forall i :: 0 <= i < |log| ==> log[i].id in calls && calls[log[i].id] == Returned(true))
    && (forall id :: id in calls && calls[id] == Returned(true) ==> Logged(log, id))
    && (forall i, j :: 0 <= i < j < |log| ==> log[i].id != log[j].id)
  }

  ghost predicate Logged(log: seq<Msg>, id: nat) {
    exists i :: 0 <= i < |log| && log[i].id == id
  }

  lemma OnceWhenNotQueued(log: seq<Msg>, calls: map<nat, Call>, id: nat, c: Call)
    requires EnqueuedOnce(log, calls) && c != Returned(true)
    requires id in calls ==> calls[id] != Returned(true)
    ensures EnqueuedOnce(log, calls[id := c])
  {
  }

  lemma OnceWhenQueued(log: seq<Msg>, calls: map<nat, Call>, m: Msg)
    requires EnqueuedOnce(log, calls) && m.id in calls && calls[m.id] != Returned(true)
    ensures EnqueuedOnce(log + [m], calls[m.id := Returned(true)])
  {
    var more := log + [m];
    assert more[|log|].id == m.id;
    forall id | id in calls && calls[id] == Returned(true)
      ensures Logged(more, id)
    {
      assert Logged(log, id);
      var i :| 0 <= i < |log| && log[i].id == id;
      assert more[i].id == id;
    }
  }

  lemma StepKeepsOnce(s: State, e: Event)
    requires EnqueuedOnce(s.log, s.calls) && Enabled(s, e)
    ensures EnqueuedOnce(Step(s, e).log, Step(s, e).calls)
  {
    match e
    case CallSend(id, close) => OnceWhenNotQueued(s.log, s.calls, id, Waiting(close));
    case Acquire(id) => OnceWhenNotQueued(s.log, s.calls, id, Holding(s.calls[id].close));
    case Finish(id) =>
      if s.open {
        OnceWhenQueued(s.log, s.calls, Msg(id, s.calls[id].close));
      } else {
        OnceWhenNotQueued(s.log, s.calls, id, Returned(false));
      }
    case Check =>
    case Get =>
    case SentAll =>
    case SendFails =>
    case Kill =>
    case Die =>
  }

  // ---------------------------------------------------------------- runs

  ghost predicate Inv(s: State) {
    Permits(s) && Ordered(s) && EnqueuedOnce(s.log, s.calls)
  }

  predicate IsRun(s: State, es: seq<Event>)
    decreases |es|
  {
    es != [] ==> Enabled(s, es[0]) && IsRun(Step(s, es[0]), es[1..])
  }

  function After(s: State, es: seq<Event>): State
    requires IsRun(s, es)
    decreases |es|
  {
    if es == [] then s else After(Step(s, es[0]), es[1..])
  }

  lemma {:induction false} RunKeepsInv(s: State, es: seq<Event>)
    requires Inv(s) && IsRun(s, es)
    ensures Inv(After(s, es)) && After(s, es).cap == s.cap
    decreases |es|
  {
    if es != [] {
      StepKeepsPermits(s, es[0]);
      StepKeepsOrder(s, es[0]);
      StepKeepsOnce(s, es[0]);
      RunKeepsInv(Step(s, es[0]), es[1..]);
    }
  }

  lemma SentIsPrefix(s: State)
    requires Ordered(s)
    ensures s.sent <= s.log
  {
    var later := if s.loop.Sending? then [s.loop.msg] else s.failed;
    assert s.log == s.sent + (later + s.drained + s.queue);
  }

  lemma QueuedIffTrue(log: seq<Msg>, calls: map<nat, Call>, id: nat)
    requires EnqueuedOnce(log, calls) && id in calls
    ensures calls[id] == Returned(true) <==> Logged(log, id)
  {
  }

  /**
   For every interleaving: permits are conserved and never exceed the capacity, what the socket got
   is a prefix of what was queued, and a call's message was queued, once, exactly when the call
   returned True.
   */
  lemma EveryRunConserves(cap: nat, es: seq<Event>, id: nat)
    requires IsRun(Start(cap), es) && id in After(Start(cap), es).calls
    ensures var s := After(Start(cap), es);
      && s.free + |s.queue| + |Holders(s.calls)| == cap
      && s.sent <= s.log
      && (s.calls[id] == Returned(true) <==> Logged(s.log, id))
      && forall i, j :: 0 <= i < j < |s.log| ==> s.log[i].id != s.log[j].id
  {
    RunKeepsInv(Start(cap), es);
    var s := After(Start(cap), es);
    SentIsPrefix(s);
    QueuedIffTrue(s.log, s.calls, id);
  }

  // ---------------------------------------------------------------- closing messages, and the end of the loop

  /** The call asked for a message with this flag. */
  predicate Asked(es: seq<Event>, id: nat, close: bool) {
    CallSend(id, close) in es
  }

  /**
   After these events: calls and messages carry the flags they were asked with, a closing message is the
   last that is sent and ends the loop, and the loop ends for no other reason than the events that end it.
   */
  ghost predicate Explained(s: State, es: seq<Event>) {
    && (forall m :: m in s.log ==> Asked(es, m.id, m.close))
    && (forall id :: id in s.calls && s.calls[id].Waiting? ==> Asked(es, id, s.calls[id].close))
    && (forall id :: id in s.calls && s.calls[id].Holding? ==> Asked(es, id, s.calls[id].close))
    && (forall i :: 0 <= i < |s.sent| && s.sent[i].close ==> i == |s.sent| - 1 && s.loop == Ended)
    && (s.dead ==> Die in es)
    && (s.loop == Ended ==>
          Kill in es || SendFails in es || Die in es || (s.sent != [] && s.sent[|s.sent| - 1].close))
  }

  lemma StepExplained(s: State, e: Event, es: seq<Event>)
    requires Explained(s, es) && Enabled(s, e)
    ensures Explained(Step(s, e), es + [e])
  {
    var t, more := Step(s, e), es + [e];
    assert e in more && forall x :: x in es ==> x in more;
    forall m | m in t.log ensures Asked(more, m.id, m.close) {
      if m in s.log {
        assert Asked(es, m.id, m.close);
      }
    }
    forall id | id in t.calls && (t.calls[id].Waiting? || t.calls[id].Holding?)
      ensures Asked(more, id, t.calls[id].close)
    {
      assert (e.CallSend? && e.id == id) || (id in s.calls && Asked(es, id, s.calls[id].close));
    }
  }

  lemma {:induction false} RunExplained(s: State, es: seq<Event>, done: seq<Event>)
    requires Explained(s, done) && IsRun(s, es)
    ensures Explained(After(s, es), done + es)
    decreases |es|
  {
    if es == [] {
      assert done + es == done;
    } else {
      StepExplained(s, es[0], done);
      RunExplained(Step(s, es[0]), es[1..], done + [es[0]]);
      assert done + [es[0]] + es[1..] == done + es;
    }
  }

  /**
   In every run the loop ends with the first closing message it has sent, and what is sent was asked
   for with that flag; it ends otherwise only by a kill, a failure of the socket or a dead connection.
   */
  lemma ClosingMessageEnds(cap: nat, es: seq<Event>)
    requires IsRun(Start(cap), es)
    ensures var s := After(Start(cap), es);
      && (forall i :: 0 <= i < |s.sent| && s.sent[i].close ==> i == |s.sent| - 1 && s.loop == Ended)
      && (forall m :: m in s.sent ==> CallSend(m.id, m.close) in es)
      && (s.loop == Ended ==>
            Kill in es || SendFails in es || Die in es || (s.sent != [] && s.sent[|s.sent| - 1].close))
  {
    RunExplained(Start(cap), es, []);
    assert [] + es == es;
    RunKeepsInv(Start(cap), es);
    var s := After(Start(cap), es);
    SentIsPrefix(s);
    forall m | m in s.sent ensures CallSend(m.id, m.close) in es {
      assert m in s.log;
      assert Asked(es, m.id, m.close);
    }
  }

  /** The loop is over, or is about to find that the connection is dead. */
  predicate Over(s: State) {
    s.loop == Ended || (s.loop == Top && s.dead)
  }

  /** Nothing is sent then, whatever callers still do. */
  lemma {:induction false} NothingSentAfterwards(s: State, es: seq<Event>)
    requires Over(s) && IsRun(s, es)
    ensures Over(After(s, es)) && After(s, es).sent == s.sent && After(s, es).failed == s.failed
    decreases |es|
  {
    if es != [] {
      NothingSentAfterwards(Step(s, es[0]), es[1..]);
    }
  }

  // ---------------------------------------------------------------- an application's event queue

  /** `_send_event` and `_event_loop`: the same steps, none of which ends the loop. */
  predicate KeepsOpen(e: Event) {
    match e
    case CallSend(_, close) => !close
    case SendFails => false
    case Kill => false
    case Die => false
    case _ => true
  }

  ghost predicate Quiet(s: State) {
    && s.open && !s.dead && s.loop != Ended
    && (forall m :: m in s.queue ==> !m.close)
    && (s.loop.Sending? ==> !s.loop.msg.close)
    && (forall id :: id in s.calls ==> if s.calls[id].Returned? then s.calls[id].enqueued else !s.calls[id].close)
  }

  lemma StepStaysQuiet(s: State, e: Event)
    requires Quiet(s) && Enabled(s, e) && KeepsOpen(e)
    ensures Quiet(Step(s, e))
  {
  }

  lemma {:induction false} RunStaysQuiet(s: State, es: seq<Event>)
    requires Quiet(s) && IsRun(s, es) && forall e :: e in es ==> KeepsOpen(e)
    ensures Quiet(After(s, es))
    decreases |es|
  {
    if es != [] {
      assert es[0] in es;
      StepStaysQuiet(s, es[0]);
      RunStaysQuiet(Step(s, es[0]), es[1..]);
    }
  }

  /** No event is refused or lost: what was sent is handled, being handled, or queued, in that order. */
  lemma EventQueueLosesNothing(cap: nat, es: seq<Event>)
    requires IsRun(Start(cap), es) && forall e :: e in es ==> KeepsOpen(e)
    ensures var s := After(Start(cap), es);
      && (forall id :: id in s.calls ==> s.calls[id] != Returned(false))
      && s.log == s.sent + (if s.loop.Sending? then [s.loop.msg] else []) + s.queue
  {
    RunStaysQuiet(Start(cap), es);
    RunKeepsInv(Start(cap), es);
    var s := After(Start(cap), es);
    assert s.drained == [] && TakenOut(s) + [] == TakenOut(s);
  }

  // ---------------------------------------------------------------- an application that stops

  datatype Item = Ev(id: nat) | StopMark

  /**
   An application's event loop and its queue. `taking`: the loop has decided to take another item.
   `marked`: `stop` has queued its mark. `leftAt`: how many items had been queued when the loop ended.
   */
  datatype App = App(active: bool, taking: bool, marked: bool, leftAt: Option<nat>,
                     free: nat, queue: seq<Item>, handled: seq<Item>, log: seq<Item>)

  /** `Deactivate` and `Put(StopMark)` are the two halves of `stop`, which may wait for a permit between them. */
  datatype AppStep = Put(item: Item) | Deactivate | Check | Take

  function NewApp(cap: nat): App {
    App(true, false, false, None, cap, [], [], [])
  }

  predicate AppEnabled(a: App, e: AppStep) {
    match e
    case Put(item) => a.free > 0 && (item.StopMark? ==> !a.active)
    case Deactivate => true
    case Check => a.leftAt.None? && !a.taking
    case Take => a.leftAt.None? && a.taking && a.queue != []
  }

  function AppAfter(a: App, e: AppStep): App
    requires AppEnabled(a, e)
  {
    match e
    case Put(item) =>
      a.(free := a.free - 1, queue := a.queue + [item], log := a.log + [item],
         marked := a.marked || item.StopMark?)
    case Deactivate => a.(active := false)
    case Check => if a.active || a.queue != [] then a.(taking := true) else a.(leftAt := Some(|a.log|))
    case Take =>
      a.(taking := false, free := a.free + 1, queue := a.queue[1..], handled := a.handled + [a.queue[0]])
  }

  predicate AppRun(a: App, es: seq<AppStep>)
    decreases |es|
  {
    es != [] ==> AppEnabled(a, es[0]) && AppRun(AppAfter(a, es[0]), es[1..])
  }

  function AppAfterAll(a: App, es: seq<AppStep>): App
    requires AppRun(a, es)
    decreases |es|
  {
    if es == [] then a else AppAfterAll(AppAfter(a, es[0]), es[1..])
  }

  predicate AppOk(a: App, cap: nat) {
    && a.log == a.handled + a.queue
    && a.free + |a.queue| == cap
    && (a.leftAt.Some? ==> a.leftAt.value == |a.handled|)
    && (a.marked ==> !a.active && (a.taking && a.leftAt.None? ==> a.queue != []))
  }

  lemma AppStepKeepsOk(a: App, e: AppStep, cap: nat)
    requires AppOk(a, cap) && AppEnabled(a, e)
    ensures AppOk(AppAfter(a, e), cap)
  {
    if e.Take? {
      assert a.queue == [a.queue[0]] + a.queue[1..];
    }
  }

  lemma {:induction false} AppRunKeepsOk(a: App, es: seq<AppStep>, cap: nat)
    requires AppOk(a, cap) && AppRun(a, es)
    ensures AppOk(AppAfterAll(a, es), cap)
    decreases |es|
  {
    if es != [] {
      AppStepKeepsOk(a, es[0], cap);
      AppRunKeepsOk(AppAfter(a, es[0]), es[1..], cap);
    }
  }

  /**
   What a stop leaves behind: the items queued after the loop ended, and only those, are never
   handled, and there are at most as many as the queue has room for. Until then everything is
   handled in order, and once the mark is queued the loop never waits in vain.
   */
  lemma StopLeavesLateEvents(cap: nat, es: seq<AppStep>)
    requires AppRun(NewApp(cap), es)
    ensures var a := AppAfterAll(NewApp(cap), es);
      && a.handled <= a.log
      && (a.leftAt.Some? ==>
            && a.leftAt.value <= |a.log|
            && a.handled == a.log[..a.leftAt.value] && a.queue == a.log[a.leftAt.value..]
            && |a.log| - a.leftAt.value <= cap)
      && (a.leftAt.None? && a.marked ==> AppEnabled(a, AppStep.Check) || AppEnabled(a, Take))
  {
    AppRunKeepsOk(NewApp(cap), es, cap);
  }

  // ---------------------------------------------------------------- the queue as the code keeps it

  class Datapath {
    const cap: nat
    var sem: nat
    // None once the connection is going down.
    var sendQ: seq<Msg>
    var open: bool
    var dead: bool
    ghost var calls: map<nat, Call>
    ghost var loop: Loop
    ghost var log: seq<Msg>
    ghost var failed: seq<Msg>
    ghost var drained: seq<Msg>
    // What `sendall` has written.
    var sent: seq<Msg>

    ghost function Value(): State
      reads this
    {
      State(cap, sem, open, dead, sendQ, calls, loop, log, sent, failed, drained)
    }

    constructor (maxsize: nat)
      ensures Value() == Start(maxsize)
    {
      cap, sem, sendQ, open, dead := maxsize, maxsize, [], true, false;
      calls, loop, log, sent, failed, drained := map[], Top, [], [], [], [];
    }

    /** `send` once its `acquire` has returned. */
    method FinishSend(m: Msg) returns (enqueued: bool)
      requires Permits(Value()) && m.id in calls && calls[m.id] == Holding(m.close)
      modifies this
      ensures Value() == Step(old(Value()), Finish(m.id))
      ensures calls[m.id] == Returned(enqueued)
      ensures sem <= cap
    {
      StepKeepsPermits(Value(), Finish(m.id));
      enqueued := false;
      if open {
        sendQ := sendQ + [m];
        log := log + [m];
        enqueued := true;
      } else {
        sem := sem + 1;
      }
      calls := calls[m.id := Returned(enqueued)];
    }

    /** The send loop when `get` returns, up to `sendall`. */
    method TakeNext() returns (m: Msg)
      requires loop == InGet && sendQ != []
      modifies this
      ensures Value() == Step(old(Value()), Get) && loop == Sending(m)
    {
      m := sendQ[0];
      sendQ := sendQ[1..];
      sem := sem + 1;
      loop := Sending(m);
    }

    /** The send loop after `sendall`. */
    method AfterSendAll(m: Msg)
      requires loop == Sending(m) && open && Permits(Value())
      modifies this
      ensures Value() == Step(old(Value()), SentAll)
    {
      sent := sent + [m];
      loop := Top;
      if m.close {
        EndLoop();
      }
    }

    /** The `finally` part, with its drain. */
    method EndLoop()
      requires Permits(Value())
      modifies this
      ensures Value() == Shutdown(old(Value()))
      ensures sem <= cap
    {
      var q := sendQ;
      drained := sendQ;
      sendQ, open := [], false;
      while q != []
        invariant Value() == Shutdown(old(Value())).(free := sem, loop := loop)
        invariant sem + |q| == old(sem) + |old(sendQ)|
        invariant loop == old(loop)
        decreases |q|
      {
        q := q[1..];
        sem := sem + 1;
      }
      loop := Ended;
    }
  }
}
