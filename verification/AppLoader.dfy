/**
 How `AppManager.load_apps` of `app_manager.py` finds the applications to run: a list of module names
 that grows by the services its members depend on.
 */
module AppLoader {

  type Name = nat

  type Key = nat

  /**
   What `get_dependent_services` of `handler.py` reads of a class: its module, the services that
   provide the events it handles, and the module's `_REQUIRED_APP`.
   */
  datatype Class = Class(moduleName: Name, handled: set<Name>, required: set<Name>)

  /** A context class, which may be an application itself. */
  datatype Context = Context(cls: Class, isApp: bool)

  /** An application class with its `_CONTEXTS`. */
  datatype App = App(cls: Class, contexts: map<Key, Context>)

  /** The application found in each module that has one. */
  type Env = map<Name, App>

  function DependentServices(c: Class): set<Name> {
    (c.handled - {c.moduleName}) + c.required
  }

  function ContextServices(contexts: map<Key, Context>): set<Name> {
    set k, s | k in contexts && contexts[k].isApp && s in DependentServices(contexts[k].cls) :: s
  }

  function Modules(contexts: map<Key, Context>): set<Name> {
    set k | k in contexts :: contexts[k].cls.moduleName
  }

  /** Everything the application or one of its contexts depends on. */
  function Needs(app: App): set<Name> {
    ContextServices(app.contexts) + DependentServices(app.cls)
  }

  /** What is queued for the application: what lives in a context's module will run with the contexts. */
  function Services(app: App, contexts: map<Key, Context>): set<Name> {
    ContextServices(app.contexts) + (DependentServices(app.cls) - Modules(contexts))
  }

  /** Two classes for one context name; the code asserts that there are none. */
  ghost predicate Conflict(contexts: map<Key, Context>, app: App) {
    exists k :: k in contexts && k in app.contexts && contexts[k] != app.contexts[k]
  }

  // ---------------------------------------------------------------- one turn of the loop

  datatype State = State(work: seq<Name>, apps: set<Name>, contexts: map<Key, Context>)

  function Elements(s: seq<Name>): set<Name> {
    set n | n in s
  }

  ghost predicate Lists(s: seq<Name>, members: set<Name>) {
    && (forall n :: n in s <==> n in members)
    && (forall i, j :: 0 <= i < j < |s| ==> s[i] != s[j])
  }

  predicate Skipped(env: Env, s: State, n: Name) {
    n in Modules(s.contexts) || n !in env
  }

  /** A turn that completes; the order of the names it queues is left open. */
  ghost predicate Turn(env: Env, s: State, t: State) {
    && s.work != []
    && var n, rest := s.work[0], s.work[1..];
       if Skipped(env, s, n) then t == s.(work := rest)
       else
         && !Conflict(s.contexts, env[n])
         && t.apps == s.apps + {n}
         && t.contexts == s.contexts + env[n].contexts
         && exists added :: Queued(env[n], rest, t.contexts, added) && t.work == rest + added
  }

  ghost predicate Queued(app: App, rest: seq<Name>, contexts: map<Key, Context>, added: seq<Name>) {
    Lists(added, Services(app, contexts) - Elements(rest))
  }

  // ---------------------------------------------------------------- termination

  /** What depends on what. */
  type Graph = map<Name, set<Name>>

  function Dependencies(env: Env): Graph {
    map n | n in env :: Needs(env[n])
  }

  /** The relation is acyclic: whatever is needed has a smaller rank. */
  ghost predicate Acyclic(g: Graph, rank: Name -> nat) {
    forall n, s :: n in g && s in g[n] ==> rank(s) < rank(n)
  }

  /** Names that each depend on one of themselves. */
  ghost predicate Cyclic(g: Graph, names: set<Name>) {
    names != {} && names <= g.Keys && forall n :: n in names ==> Meets(g[n], names)
  }

  ghost predicate Meets(a: set<Name>, b: set<Name>) {
    exists n :: n in a && n in b
  }

  /** Such a rank exists exactly when no names depend on each other in a cycle. */
  lemma RankExistsExactly(g: Graph)
    ensures (exists rank: Name -> nat :: Acyclic(g, rank)) <==> !exists names :: Cyclic(g, names)
  {
    if rank: Name -> nat :| Acyclic(g, rank) {
      forall names
        ensures !Cyclic(g, names)
      {
        if Cyclic(g, names) {
          var n :| n in names;
          CycleDescends(g, rank, names, n);
        }
      }
    } else if !exists names :: Cyclic(g, names) {
      var ranks := Ranking(g, {}, map[]);
      RankingFalls(g, ranks);
    }
  }

  lemma {:induction false} CycleDescends(g: Graph, rank: Name -> nat, names: set<Name>, n: Name)
    requires Acyclic(g, rank) && Cyclic(g, names) && n in names
    ensures false
    decreases rank(n)
  {
    assert Meets(g[n], names);
    var d :| d in g[n] && d in names;
    CycleDescends(g, rank, names, d);
  }

  /** The ranks given so far are positive, at most their number, and fall along dependencies. */
  ghost predicate Ranked(g: Graph, done: set<Name>, ranks: map<Name, nat>) {
    && ranks.Keys == done && done <= g.Keys
    && (forall n :: n in done ==> 0 < ranks[n] <= |done|)
    && (forall n, s :: n in done && s in g[n] && s in g ==> s in done && ranks[s] < ranks[n])
  }

  lemma RankingFalls(g: Graph, ranks: map<Name, nat>)
    requires Ranked(g, g.Keys, ranks)
    ensures exists rank: Name -> nat :: Acyclic(g, rank)
  {
    var rank := n => if n in ranks then ranks[n] else 0;
    assert Acyclic(g, rank);
  }

  /** While some names are left, one of them needs none of the others. */
  lemma {:induction false} Ranking(g: Graph, done: set<Name>, ranks: map<Name, nat>) returns (all: map<Name, nat>)
    requires Ranked(g, done, ranks) && !exists names :: Cyclic(g, names)
    ensures Ranked(g, g.Keys, all)
    decreases |g.Keys - done|
  {
    if done == g.Keys {
      all := ranks;
    } else {
      var todo := g.Keys - done;
      assert !Cyclic(g, todo);
      var n :| n in todo && !Meets(g[n], todo);
      RankOneMore(g, done, ranks, n);
      assert g.Keys - (done + {n}) == todo - {n};
      all := Ranking(g, done + {n}, ranks[n := |done| + 1]);
    }
  }

  lemma RankOneMore(g: Graph, done: set<Name>, ranks: map<Name, nat>, n: Name)
    requires Ranked(g, done, ranks) && n in g.Keys - done && !Meets(g[n], g.Keys - done)
    ensures Ranked(g, done + {n}, ranks[n := |done| + 1])
  {
    forall s | s in g[n] && s in g
      ensures s in done
    {
    }
  }

  function Pow(b: nat, e: nat): (p: nat)
    ensures b > 0 ==> p > 0
  {
    if e == 0 then 1 else b * Pow(b, e - 1)
  }

  lemma {:induction false} PowGrows(b: nat, d: nat, e: nat)
    requires b > 0 && d <= e
    ensures Pow(b, d) <= Pow(b, e)
  {
    if d < e {
      PowGrows(b, d, e - 1);
      assert Pow(b, e) == b * Pow(b, e - 1) >= Pow(b, e - 1);
    }
  }

  /** The weight of the list: a name of rank r outweighs all that one turn can queue for it. */
  ghost function Weight(work: seq<Name>, rank: Name -> nat, most: nat): nat {
    if work == [] then 0
    else Weight(work[..|work| - 1], rank, most) + Pow(most + 1, rank(work[|work| - 1]))
  }

  lemma {:induction false} WeightConcat(a: seq<Name>, b: seq<Name>, rank: Name -> nat, most: nat)
    ensures Weight(a + b, rank, most) == Weight(a, rank, most) + Weight(b, rank, most)
  {
    if b == [] {
      assert a + b == a;
    } else {
      WeightConcat(a, b[..|b| - 1], rank, most);
      assert (a + b)[..|a + b| - 1] == a + b[..|b| - 1];
    }
  }

  lemma {:induction false} WeightBound(work: seq<Name>, rank: Name -> nat, most: nat, r: nat)
    requires forall n :: n in work ==> rank(n) <= r
    ensures Weight(work, rank, most) <= |work| * Pow(most + 1, r)
  {
    if work != [] {
      WeightBound(work[..|work| - 1], rank, most, r);
      PowGrows(most + 1, rank(work[|work| - 1]), r);
      var p := Pow(most + 1, r);
      assert |work| * p == (|work| - 1) * p + p;
    }
  }

  lemma {:induction false} ListsLength(s: seq<Name>, members: set<Name>)
    requires Lists(s, members)
    ensures |s| == |members|
  {
    if s == [] {
      assert members == {};
    } else {
      var front, last := s[..|s| - 1], s[|s| - 1];
      assert s == front + [last];
      assert last in members && last !in front;
      assert Lists(front, members - {last});
      ListsLength(front, members - {last});
    }
  }

  lemma SubsetSize(a: set<Name>, b: set<Name>)
    requires a <= b
    ensures |a| <= |b|
  {
    assert b == a + (b - a);
  }

  lemma AddedIsNeeded(app: App, rest: seq<Name>, contexts: map<Key, Context>, added: seq<Name>)
    requires Queued(app, rest, contexts, added)
    ensures |added| <= |Needs(app)|
    ensures forall n :: n in added ==> n in Needs(app)
  {
    var fresh_ := Services(app, contexts) - Elements(rest);
    ListsLength(added, fresh_);
    SubsetSize(fresh_, Needs(app));
  }

  lemma ProductLess(count: nat, most: nat, p: nat)
    requires count <= most && p > 0
    ensures count * p < (most + 1) * p
  {
    assert (most + 1 - count) * p > 0;
  }

  lemma AddedWeighsLess(added: seq<Name>, rank: Name -> nat, most: nat, r: nat)
    requires |added| <= most && forall n :: n in added ==> rank(n) < r
    ensures Weight(added, rank, most) < Pow(most + 1, r)
  {
    if added != [] {
      assert added[0] in added;
      WeightBound(added, rank, most, r - 1);
      ProductLess(|added|, most, Pow(most + 1, r - 1));
    }
  }

  /**
   Every turn lowers the weight when the dependencies are acyclic, although a name that was loaded
   before may be queued, and loaded, again.
   */
  lemma TurnLowersWeight(env: Env, s: State, t: State, rank: Name -> nat, most: nat)
    requires Turn(env, s, t) && Acyclic(Dependencies(env), rank)
    requires forall n :: n in env ==> |Needs(env[n])| <= most
    ensures Weight(t.work, rank, most) < Weight(s.work, rank, most)
  {
    var n, rest := s.work[0], s.work[1..];
    assert s.work == [n] + rest;
    WeightConcat([n], rest, rank, most);
    assert Weight([n], rank, most) == Pow(most + 1, rank(n)) by {
      assert [n][..0] == [];
    }
    if !Skipped(env, s, n) {
      var added :| Queued(env[n], rest, t.contexts, added) && t.work == rest + added;
      WeightConcat(rest, added, rank, most);
      AddedIsNeeded(env[n], rest, t.contexts, added);
      assert Dependencies(env)[n] == Needs(env[n]);
      AddedWeighsLess(added, rank, most, rank(n));
    }
  }

  lemma {:induction false} NeedsAreBounded(env: Env, names: set<Name>) returns (most: nat)
    requires names <= env.Keys
    ensures forall n :: n in names ==> |Needs(env[n])| <= most
    decreases |names|
  {
    if names == {} {
      most := 0;
    } else {
      var n :| n in names;
      most := NeedsAreBounded(env, names - {n});
      if |Needs(env[n])| > most {
        most := |Needs(env[n])|;
      }
    }
  }

  ghost predicate Queues(work: seq<Name>, names: set<Name>) {
    exists c :: c in work && c in names
  }

  /** Each of the names needs one of them, and none of them is the module of a context. */
  ghost predicate ClosedCycle(env: Env, cycle: set<Name>) {
    && Cyclic(Dependencies(env), cycle)
    && (forall n :: n in env ==> Modules(env[n].contexts) !! cycle)
  }

  /** One of the names is queued, and none of them comes with a context. */
  ghost predicate Trapped(s: State, cycle: set<Name>) {
    Modules(s.contexts) !! cycle && Queues(s.work, cycle)
  }

  /** The state is reached from another by so many turns. */
  ghost predicate ReachedIn(env: Env, s: State, t: State, turns: nat)
    decreases turns
  {
    if turns == 0 then s == t
    else exists u :: ReachedIn(env, s, u, turns - 1) && Turn(env, u, t)
  }

  /**
   The other direction: names that each need one of themselves keep the loop going for ever, unless
   one of them is the module of a context.
   */
  lemma CyclesNeverEnd(env: Env, s: State, t: State, cycle: set<Name>, turns: nat)
    requires ClosedCycle(env, cycle) && Trapped(s, cycle) && ReachedIn(env, s, t, turns)
    ensures t.work != []
  {
    forall a, b | Trapped(a, cycle) && Turn(env, a, b)
      ensures Trapped(b, cycle)
    {
      CycleStep(env, a, b, cycle);
    }
    TurnsKeepTrapped(env, s, t, cycle, turns);
    TrappedGoesOn(t, cycle);
  }

  lemma {:induction false} TurnsKeepTrapped(env: Env, s: State, t: State, cycle: set<Name>, turns: nat)
    requires forall a, b :: Trapped(a, cycle) && Turn(env, a, b) ==> Trapped(b, cycle)
    requires Trapped(s, cycle) && ReachedIn(env, s, t, turns)
    ensures Trapped(t, cycle)
    decreases turns
  {
    if turns > 0 {
      var u :| ReachedIn(env, s, u, turns - 1) && Turn(env, u, t);
      TurnsKeepTrapped(env, s, u, cycle, turns - 1);
    }
  }

  lemma TrappedGoesOn(s: State, cycle: set<Name>)
    requires Trapped(s, cycle)
    ensures s.work != []
  {
  }

  lemma CycleStep(env: Env, s: State, t: State, cycle: set<Name>)
    requires ClosedCycle(env, cycle) && Trapped(s, cycle) && Turn(env, s, t)
    ensures Trapped(t, cycle)
  {
    TurnKeepsOutOfCycle(env, s, t, cycle);
    TurnKeepsCycle(env, s, t, cycle);
  }

  lemma TurnKeepsOutOfCycle(env: Env, s: State, t: State, cycle: set<Name>)
    requires Turn(env, s, t) && Modules(s.contexts) !! cycle
    requires forall n :: n in env ==> Modules(env[n].contexts) !! cycle
    ensures Modules(t.contexts) !! cycle
  {
    if !Skipped(env, s, s.work[0]) {
      MergedModules(s.contexts, env[s.work[0]].contexts);
    }
  }

  lemma MergedModules(a: map<Key, Context>, b: map<Key, Context>)
    ensures Modules(a + b) <= Modules(a) + Modules(b)
  {
  }

  lemma TurnKeepsCycle(env: Env, s: State, t: State, cycle: set<Name>)
    requires Turn(env, s, t) && Modules(s.contexts) !! cycle && Modules(t.contexts) !! cycle
    requires Cyclic(Dependencies(env), cycle)
    requires Queues(s.work, cycle)
    ensures Queues(t.work, cycle)
  {
    var n := s.work[0];
    var c :| c in s.work && c in cycle;
    if n in cycle {
      assert Meets(Dependencies(env)[n], cycle);
      var d :| d in Dependencies(env)[n] && d in cycle;
      NeedIsQueued(env, s, t, d);
      assert d in t.work;
    } else {
      OtherStays(env, s, t, c);
    }
  }

  lemma OtherStays(env: Env, s: State, t: State, c: Name)
    requires Turn(env, s, t) && c in s.work && c != s.work[0]
    ensures c in t.work
  {
    assert s.work == [s.work[0]] + s.work[1..];
    assert c in s.work[1..];
  }

  lemma NeedIsQueued(env: Env, s: State, t: State, d: Name)
    requires Turn(env, s, t) && !Skipped(env, s, s.work[0])
    requires d in Needs(env[s.work[0]]) && d !in Modules(t.contexts)
    ensures d in t.work
  {
    var n, rest := s.work[0], s.work[1..];
    var added :| Queued(env[n], rest, t.contexts, added) && t.work == rest + added;
    assert d in Services(env[n], t.contexts);
    assert d in added || d in Elements(rest);
  }

  // ---------------------------------------------------------------- what is loaded

  /** The name was dealt with: it is loaded, it comes with a context, or it names no application. */
  predicate Settled(env: Env, s: State, n: Name) {
    n in s.apps || n in Modules(s.contexts) || n !in env
  }

  /** Every dependency of a loaded application or of its contexts is settled or queued. */
  ghost predicate Covered(env: Env, s: State) {
    && s.apps <= env.Keys
    && (forall n, k :: n in s.apps && k in env[n].contexts ==> k in s.contexts && s.contexts[k] == env[n].contexts[k])
    && (forall n, d :: n in s.apps && d in Needs(env[n]) ==> Settled(env, s, d) || d in s.work)
  }

  lemma ModulesGrow(a: map<Key, Context>, b: map<Key, Context>)
    requires forall k :: k in a && k in b ==> a[k] == b[k]
    ensures Modules(a + b) == Modules(a) + Modules(b)
  {
    forall m | m in Modules(a) + Modules(b)
      ensures m in Modules(a + b)
    {
      if m in Modules(a) {
        var k :| k in a && a[k].cls.moduleName == m;
        assert k in a + b && (a + b)[k] == a[k];
      } else {
        var k :| k in b && b[k].cls.moduleName == m;
        assert k in a + b && (a + b)[k] == b[k];
      }
    }
  }

  lemma TurnSettles(env: Env, s: State, t: State, n: Name)
    requires Turn(env, s, t) && (Settled(env, s, n) || n in s.work)
    ensures Settled(env, t, n) || n in t.work
  {
    var first, rest := s.work[0], s.work[1..];
    assert s.work == [first] + rest;
    if !Skipped(env, s, first) {
      ModulesGrow(s.contexts, env[first].contexts);
    }
  }

  lemma TurnKeepsCovered(env: Env, s: State, t: State)
    requires Turn(env, s, t) && Covered(env, s)
    ensures Covered(env, t)
  {
    var first, rest := s.work[0], s.work[1..];
    forall n, d | n in t.apps && d in Needs(env[n])
      ensures Settled(env, t, d) || d in t.work
    {
      if n in s.apps {
        TurnSettles(env, s, t, d);
      } else {
        NewAppCovered(env, s, t, d);
      }
    }
  }

  lemma NewAppCovered(env: Env, s: State, t: State, d: Name)
    requires Turn(env, s, t) && !Skipped(env, s, s.work[0]) && d in Needs(env[s.work[0]])
    ensures Settled(env, t, d) || d in t.work
  {
    if d !in Modules(t.contexts) {
      NeedIsQueued(env, s, t, d);
    }
  }

  // ---------------------------------------------------------------- nothing else is loaded

  /** The class handles events of the service, which is not its own module, or its module requires it. */
  predicate Wants(c: Class, d: Name) {
    (d in c.handled && d != c.moduleName) || d in c.required
  }

  /** The application wants the service itself, or a context of it that is an application does. */
  ghost predicate DependsOn(app: App, d: Name) {
    Wants(app.cls, d) || exists k :: k in app.contexts && app.contexts[k].isApp && Wants(app.contexts[k].cls, d)
  }

  lemma NeedsAreDependencies(app: App, d: Name)
    ensures d in Needs(app) <==> DependsOn(app, d)
  {
    forall k | k in app.contexts && app.contexts[k].isApp && Wants(app.contexts[k].cls, d)
      ensures d in ContextServices(app.contexts)
    {
      assert d in DependentServices(app.contexts[k].cls);
    }
  }

  /** A chain of loaded applications, each of which depends on the next, from one of the names asked for. */
  ghost predicate Chain(env: Env, apps: set<Name>, names: seq<Name>, path: seq<Name>) {
    && path != [] && path[0] in names
    && (forall i :: 0 <= i < |path| ==> path[i] in apps && path[i] in env)
    && (forall i :: 0 <= i < |path| - 1 ==> DependsOn(env[path[i]], path[i + 1]))
  }

  ghost predicate ReachedBy(env: Env, apps: set<Name>, names: seq<Name>, n: Name) {
    exists path :: Chain(env, apps, names, path) && path[|path| - 1] == n
  }

  /** The name was asked for, or a loaded application depends on it. */
  ghost predicate CalledFor(env: Env, apps: set<Name>, names: seq<Name>, n: Name) {
    n in names || exists m :: m in apps && ReachedBy(env, apps, names, m) && m in env && DependsOn(env[m], n)
  }

  ghost predicate Provided(env: Env, apps: set<Name>, k: Key, c: Context) {
    exists n :: n in apps && n in env && k in env[n].contexts && env[n].contexts[k] == c
  }

  /** All that is loaded, queued and registered is called for. */
  ghost predicate OnlyNeeded(env: Env, names: seq<Name>, s: State) {
    && (forall n :: n in s.apps ==> ReachedBy(env, s.apps, names, n))
    && (forall n :: n in s.work ==> CalledFor(env, s.apps, names, n))
    && (forall k :: k in s.contexts ==> Provided(env, s.apps, k, s.contexts[k]))
  }

  lemma ReachedGrows(env: Env, apps: set<Name>, more: set<Name>, names: seq<Name>, n: Name)
    requires apps <= more && ReachedBy(env, apps, names, n)
    ensures ReachedBy(env, more, names, n)
  {
    var path :| Chain(env, apps, names, path) && path[|path| - 1] == n;
    assert Chain(env, more, names, path);
  }

  lemma CalledForGrows(env: Env, apps: set<Name>, more: set<Name>, names: seq<Name>, n: Name)
    requires apps <= more && CalledFor(env, apps, names, n)
    ensures CalledFor(env, more, names, n)
  {
    if n !in names {
      var m :| m in apps && ReachedBy(env, apps, names, m) && m in env && DependsOn(env[m], n);
      ReachedGrows(env, apps, more, names, m);
    }
  }

  lemma LoadedIsReached(env: Env, apps: set<Name>, names: seq<Name>, n: Name)
    requires CalledFor(env, apps, names, n) && n in env
    ensures ReachedBy(env, apps + {n}, names, n)
  {
    if n in names {
      assert Chain(env, apps + {n}, names, [n]);
    } else {
      var m :| m in apps && ReachedBy(env, apps, names, m) && m in env && DependsOn(env[m], n);
      var path :| Chain(env, apps, names, path) && path[|path| - 1] == m;
      assert Chain(env, apps + {n}, names, path + [n]);
    }
  }

  lemma TurnKeepsOnlyNeeded(env: Env, names: seq<Name>, s: State, t: State)
    requires Turn(env, s, t) && OnlyNeeded(env, names, s)
    ensures OnlyNeeded(env, names, t)
  {
    var n := s.work[0];
    assert CalledFor(env, s.apps, names, n);
    if !Skipped(env, s, n) {
      LoadedIsReached(env, s.apps, names, n);
      forall m | m in s.apps ensures ReachedBy(env, t.apps, names, m) {
        ReachedGrows(env, s.apps, t.apps, names, m);
      }
      forall m | m in t.work ensures CalledFor(env, t.apps, names, m) {
        WorkIsCalledFor(env, names, s, t, m);
      }
      forall k | k in t.contexts ensures Provided(env, t.apps, k, t.contexts[k]) {
        if k !in env[n].contexts {
          assert Provided(env, s.apps, k, s.contexts[k]);
        }
      }
    }
  }

  lemma WorkIsCalledFor(env: Env, names: seq<Name>, s: State, t: State, m: Name)
    requires Turn(env, s, t) && !Skipped(env, s, s.work[0]) && m in t.work
    requires forall w :: w in s.work ==> CalledFor(env, s.apps, names, w)
    requires ReachedBy(env, t.apps, names, s.work[0])
    ensures CalledFor(env, t.apps, names, m)
  {
    var n, rest := s.work[0], s.work[1..];
    var added :| Queued(env[n], rest, t.contexts, added) && t.work == rest + added;
    if m in rest {
      assert m in s.work;
      CalledForGrows(env, s.apps, t.apps, names, m);
    } else {
      AddedIsNeeded(env[n], rest, t.contexts, added);
      NeedsAreDependencies(env[n], m);
    }
  }

  /** A set of names that holds all that was asked for, and all that its members depend on. */
  ghost predicate Closed(env: Env, names: seq<Name>, all: set<Name>) {
    (forall n :: n in names ==> n in all) && forall n, d :: n in all && n in env && DependsOn(env[n], d) ==> d in all
  }

  /** What is loaded lies in every such set; in particular, it was asked for if nothing else is needed. */
  lemma LoadedIsLeast(env: Env, names: seq<Name>, apps: set<Name>, all: set<Name>)
    requires OnlyReached(env, names, apps) && Closed(env, names, all)
    ensures apps <= all
  {
    forall n | n in apps ensures n in all {
      var path :| Chain(env, apps, names, path) && path[|path| - 1] == n;
      ChainStaysIn(env, names, apps, all, path, |path| - 1);
    }
  }

  /**
   Exactly the names asked for are loaded, when they depend on nothing else and none of them is the
   module of a context.
   */
  lemma ExactlyAsked(env: Env, names: seq<Name>, apps: set<Name>, contexts: map<Key, Context>)
    requires OnlyReached(env, names, apps) && AllLoaded(env, names, apps, contexts) && ContextsOf(env, apps, contexts)
    requires Closed(env, names, Elements(names)) && forall n :: n in names ==> n in env
    requires forall n, k :: n in names && k in env[n].contexts ==> env[n].contexts[k].cls.moduleName !in names
    ensures apps == Elements(names)
  {
    LoadedIsLeast(env, names, apps, Elements(names));
    forall n | n in names ensures n in apps {
      forall k | k in contexts ensures contexts[k].cls.moduleName != n {
        assert Provided(env, apps, k, contexts[k]);
      }
    }
  }

  lemma {:induction false} ChainStaysIn(env: Env, names: seq<Name>, apps: set<Name>, all: set<Name>, path: seq<Name>,
                                        i: nat)
    requires Chain(env, apps, names, path) && Closed(env, names, all) && i < |path|
    ensures path[i] in all
  {
    if i > 0 {
      ChainStaysIn(env, names, apps, all, path, i - 1);
      assert DependsOn(env[path[i - 1]], path[i - 1 + 1]);
    }
  }

  // ---------------------------------------------------------------- the order of the list

  /** The name is the module of a context of an application asked for before. */
  ghost predicate ComesWithEarlier(env: Env, names: seq<Name>, i: nat)
    requires i < |names|
  {
    exists j, k :: 0 <= j < i && names[j] in env && k in env[names[j]].contexts
      && env[names[j]].contexts[k].cls.moduleName == names[i]
  }

  /** The names asked for are dealt with first, in their order: where the list stands after `i` turns. */
  ghost predicate InOrder(env: Env, names: seq<Name>, s: State, i: nat) {
    && (forall j :: 0 <= j < |names| && j < i && names[j] in env && !ComesWithEarlier(env, names, j) ==>
          names[j] in s.apps)
    && (i < |names| ==>
          && names[i..] <= s.work
          && forall k :: k in s.contexts ==> Provided(env, Elements(names[..i]), k, s.contexts[k]))
  }

  lemma TurnKeepsOrder(env: Env, names: seq<Name>, s: State, t: State, i: nat)
    requires Turn(env, s, t) && InOrder(env, names, s, i)
    ensures InOrder(env, names, t, i + 1)
  {
    if i < |names| {
      var n := names[i];
      assert s.work[0] == names[i..][0] == n;
      assert names[i + 1..] == names[i..][1..];
      if n in Modules(s.contexts) {
        SkippedComesEarlier(env, names, s, i);
      }
      if i + 1 < |names| {
        forall k | k in t.contexts
          ensures Provided(env, Elements(names[..i + 1]), k, t.contexts[k])
        {
          assert names[..i + 1] == names[..i] + [n];
          if k in s.contexts && t.contexts[k] == s.contexts[k] {
            assert Provided(env, Elements(names[..i]), k, s.contexts[k]);
          } else {
            assert n in Elements(names[..i + 1]);
          }
        }
      }
    }
  }

  lemma SkippedComesEarlier(env: Env, names: seq<Name>, s: State, i: nat)
    requires i < |names| && names[i] in Modules(s.contexts)
    requires forall k :: k in s.contexts ==> Provided(env, Elements(names[..i]), k, s.contexts[k])
    ensures ComesWithEarlier(env, names, i)
  {
    var k :| k in s.contexts && s.contexts[k].cls.moduleName == names[i];
    assert Provided(env, Elements(names[..i]), k, s.contexts[k]);
    var n :| n in Elements(names[..i]) && n in env && k in env[n].contexts && env[n].contexts[k] == s.contexts[k];
    var j :| 0 <= j < i && names[..i][j] == n;
    assert names[j] == n;
  }

  // ---------------------------------------------------------------- modules of contexts

  /** The name is first asked for after an application, itself loaded, that has it as a context's module. */
  ghost predicate ComesWithLoaded(env: Env, names: seq<Name>, i: nat)
    requires i < |names|
  {
    && names[i] !in names[..i]
    && exists j: nat ::
         j < i && names[j] in env && !ComesWithEarlier(env, names, j) && HasModule(env[names[j]], names[i])
  }

  ghost predicate HasModule(app: App, n: Name) {
    exists k :: k in app.contexts && app.contexts[k].cls.moduleName == n
  }

  /** The contexts of what is loaded are registered. */
  ghost predicate ContextsIn(env: Env, s: State) {
    forall n, k :: n in s.apps && n in env && k in env[n].contexts ==>
      k in s.contexts && s.contexts[k] == env[n].contexts[k]
  }

  /** After `i` turns only names asked for so far are loaded, and none that comes with one of them. */
  ghost predicate ModulesLeftOut(env: Env, names: seq<Name>, s: State, i: nat) {
    && (i <= |names| ==> s.apps <= Elements(names[..i]))
    && ContextsIn(env, s)
    && forall m: nat :: m < |names| && m < i && ComesWithLoaded(env, names, m) ==> names[m] !in s.apps
  }

  lemma TurnLeavesModulesOut(env: Env, names: seq<Name>, s: State, t: State, i: nat)
    requires Turn(env, s, t) && InOrder(env, names, s, i) && ModulesLeftOut(env, names, s, i)
    ensures ModulesLeftOut(env, names, t, i + 1)
  {
    var n := s.work[0];
    if i < |names| {
      assert n == names[i..][0] == names[i];
      assert names[..i + 1] == names[..i] + [n];
    }
    TurnLoads(env, s, t);
    forall m: nat | m < |names| && m < i + 1 && ComesWithLoaded(env, names, m)
      ensures names[m] !in t.apps
    {
      ComesRegistered(env, names, s, i, m);
      if m == i {
        assert s.apps <= Elements(names[..i]);
      }
    }
  }

  lemma TurnLoads(env: Env, s: State, t: State)
    requires Turn(env, s, t)
    ensures t.apps <= s.apps + {s.work[0]}
    ensures forall n :: n in t.apps && n !in s.apps ==> n !in Modules(s.contexts)
    ensures ContextsIn(env, s) ==> ContextsIn(env, t)
  {
  }

  lemma ComesRegistered(env: Env, names: seq<Name>, s: State, i: nat, m: nat)
    requires m < |names| && m < i + 1 && ComesWithLoaded(env, names, m) && ContextsIn(env, s)
    requires forall j: nat :: j < |names| && j < i && names[j] in env && !ComesWithEarlier(env, names, j) ==>
      names[j] in s.apps
    ensures names[m] in Modules(s.contexts)
  {
    var j: nat :| j < m && names[j] in env && !ComesWithEarlier(env, names, j) && HasModule(env[names[j]], names[m]);
    assert names[j] in s.apps;
    ModuleIsRegistered(env[names[j]], names[m], s.contexts);
  }

  lemma ModuleIsRegistered(app: App, n: Name, contexts: map<Key, Context>)
    requires HasModule(app, n) && forall k :: k in app.contexts ==> k in contexts && contexts[k] == app.contexts[k]
    ensures n in Modules(contexts)
  {
    var k :| k in app.contexts && app.contexts[k].cls.moduleName == n;
    assert k in contexts && contexts[k].cls.moduleName == n;
  }

  /** As long as no name is asked for twice, none is ever queued twice. */
  lemma NoneQueuedTwice(env: Env, s: State, t: State)
    requires Turn(env, s, t) && forall i, j :: 0 <= i < j < |s.work| ==> s.work[i] != s.work[j]
    ensures forall i, j :: 0 <= i < j < |t.work| ==> t.work[i] != t.work[j]
  {
    var n, rest := s.work[0], s.work[1..];
    if !Skipped(env, s, n) {
      var added :| Queued(env[n], rest, t.contexts, added) && t.work == rest + added;
      forall i, j | 0 <= i < j < |t.work|
        ensures t.work[i] != t.work[j]
      {
        if i < |rest| <= j {
          assert t.work[j] in added && t.work[i] in rest;
        }
      }
    }
  }

  lemma FoundIsReached(env: Env, names: seq<Name>, s: State)
    requires OnlyNeeded(env, names, s) && s.work != [] && s.work[0] in env
    ensures OnlyReached(env, names, s.apps + {s.work[0]})
  {
    assert CalledFor(env, s.apps, names, s.work[0]);
    LoadedIsReached(env, s.apps, names, s.work[0]);
    forall n | n in s.apps ensures ReachedBy(env, s.apps + {s.work[0]}, names, n) {
      ReachedGrows(env, s.apps, s.apps + {s.work[0]}, names, n);
    }
  }

  // ---------------------------------------------------------------- the loop

  /** Nothing is loaded but what the names asked for lead to. */
  ghost predicate OnlyReached(env: Env, names: seq<Name>, apps: set<Name>) {
    forall n :: n in apps ==> ReachedBy(env, apps, names, n)
  }

  /** The name is the module of a registered context, or of no application. */
  ghost predicate NotToLoad(env: Env, contexts: map<Key, Context>, n: Name) {
    n !in env || exists k :: k in contexts && contexts[k].cls.moduleName == n
  }

  /** All that was asked for is loaded, and all that the loaded applications depend on. */
  ghost predicate AllLoaded(env: Env, names: seq<Name>, apps: set<Name>, contexts: map<Key, Context>) {
    && (forall n :: n in names ==> n in apps || NotToLoad(env, contexts, n))
    && (forall n, d :: n in apps && n in env && DependsOn(env[n], d) ==> d in apps || NotToLoad(env, contexts, d))
  }

  /**
   A name asked for is loaded unless it is the module of a context of an application asked for before; it
   is not loaded if that application is, unless it was asked for even earlier.
   */
  ghost predicate OrderDecides(env: Env, names: seq<Name>, apps: set<Name>) {
    && (forall i: nat :: i < |names| && names[i] in env && !ComesWithEarlier(env, names, i) ==> names[i] in apps)
    && (forall i: nat :: i < |names| && ComesWithLoaded(env, names, i) ==> names[i] !in apps)
  }

  /** The registered contexts are those of the loaded applications. */
  ghost predicate ContextsOf(env: Env, apps: set<Name>, contexts: map<Key, Context>) {
    && (forall n, k :: n in apps && n in env && k in env[n].contexts ==>
          k in contexts && contexts[k] == env[n].contexts[k])
    && (forall k :: k in contexts ==> Provided(env, apps, k, contexts[k]))
  }

  ghost predicate LoopOk(env: Env, names: seq<Name>, s: State, i: nat) {
    && OnlyNeeded(env, names, s)
    && InOrder(env, names, s, i)
    && ModulesLeftOut(env, names, s, i)
    && Covered(env, s)
    && forall n :: n in names ==> Settled(env, s, n) || n in s.work
  }

  lemma LoopStarts(env: Env, names: seq<Name>)
    ensures LoopOk(env, names, State(names, {}, map[]), 0)
  {
    assert names[0..] == names;
  }

  lemma TurnKeepsLoop(env: Env, names: seq<Name>, s: State, t: State, i: nat)
    requires Turn(env, s, t) && LoopOk(env, names, s, i)
    ensures LoopOk(env, names, t, i + 1)
  {
    TurnKeepsCovered(env, s, t);
    TurnKeepsOnlyNeeded(env, names, s, t);
    TurnKeepsOrder(env, names, s, t, i);
    TurnLeavesModulesOut(env, names, s, t, i);
    forall n | n in names
      ensures Settled(env, t, n) || n in t.work
    {
      TurnSettles(env, s, t, n);
    }
  }

  lemma LoopEnds(env: Env, names: seq<Name>, s: State, i: nat)
    requires LoopOk(env, names, s, i) && s.work == []
    ensures OnlyReached(env, names, s.apps)
    ensures AllLoaded(env, names, s.apps, s.contexts) && ContextsOf(env, s.apps, s.contexts)
    ensures OrderDecides(env, names, s.apps)
  {
    CoveredEnds(env, names, s);
    OrderEnds(env, names, s, i);
    ContextsEnd(env, names, s);
  }

  lemma ContextsEnd(env: Env, names: seq<Name>, s: State)
    requires Covered(env, s) && OnlyNeeded(env, names, s)
    ensures ContextsOf(env, s.apps, s.contexts)
  {
  }

  lemma OrderEnds(env: Env, names: seq<Name>, s: State, i: nat)
    requires InOrder(env, names, s, i) && ModulesLeftOut(env, names, s, i) && s.work == []
    ensures OrderDecides(env, names, s.apps)
  {
    if i < |names| {
      PrefixIsEmpty(names, i, s.work);
    }
  }

  lemma CoveredEnds(env: Env, names: seq<Name>, s: State)
    requires Covered(env, s) && s.work == [] && forall n :: n in names ==> Settled(env, s, n)
    ensures AllLoaded(env, names, s.apps, s.contexts)
  {
    forall n | Settled(env, s, n) && n !in s.apps
      ensures NotToLoad(env, s.contexts, n)
    {
    }
    forall n, d | n in s.apps && n in env && DependsOn(env[n], d)
      ensures Settled(env, s, d)
    {
      NeedsAreDependencies(env[n], d);
    }
  }

  lemma PrefixIsEmpty(names: seq<Name>, i: nat, work: seq<Name>)
    requires i < |names| && names[i..] <= work
    ensures work != []
  {
  }

  /** The names in some order, each once. */
  method Listing(names: set<Name>) returns (s: seq<Name>)
    ensures Lists(s, names)
  {
    s := [];
    var todo := names;
    while todo != {}
      invariant todo <= names && Lists(s, names - todo)
      decreases |todo|
    {
      var n: Name :| n in todo;
      s := s + [n];
      todo := todo - {n};
    }
    assert names - todo == names;
  }

  /** The inner loop over `_CONTEXTS`; stops at a context that another class already provides. */
  method AddContexts(old_: map<Key, Context>, app: App)
    returns (ok: bool, contexts: map<Key, Context>, services: set<Name>)
    ensures ok <==> !Conflict(old_, app)
    ensures ok ==> contexts == old_ + app.contexts && services == ContextServices(app.contexts)
  {
    contexts, services, ok := old_, {}, true;
    var todo: set<Key> := app.contexts.Keys;
    while todo != {}
      invariant todo <= app.contexts.Keys
      invariant MergedBut(old_, app.contexts, todo, contexts)
      invariant services == ContextServices(app.contexts - todo)
      decreases |todo|
    {
      var k: Key :| k in todo;
      var c := app.contexts[k];
      MergeStep(old_, app, todo, contexts, k);
      if k in contexts && contexts[k] != c {
        return false, contexts, services;
      }
      OneMoreContext(app.contexts, todo, k);
      contexts := contexts[k := c];
      if c.isApp {
        services := services + DependentServices(c.cls);
      }
      todo := todo - {k};
    }
    assert app.contexts - todo == app.contexts;
    MergeEnds(old_, app, contexts);
  }

  lemma MergeStep(old_: map<Key, Context>, app: App, todo: set<Key>, now: map<Key, Context>, k: Key)
    requires MergedBut(old_, app.contexts, todo, now) && k in todo && todo <= app.contexts.Keys
    ensures if k in now && now[k] != app.contexts[k] then Conflict(old_, app)
      else MergedBut(old_, app.contexts, todo - {k}, now[k := app.contexts[k]])
  {
  }

  lemma MergeEnds(old_: map<Key, Context>, app: App, now: map<Key, Context>)
    requires MergedBut(old_, app.contexts, {}, now)
    ensures now == old_ + app.contexts && !Conflict(old_, app)
  {
  }

  /** `now` is `old_` with the contexts of `more` but those still to do, and they agree with it. */
  ghost predicate MergedBut(old_: map<Key, Context>, more: map<Key, Context>, todo: set<Key>, now: map<Key, Context>) {
    && now.Keys == old_.Keys + (more.Keys - todo)
    && (forall k :: k in more.Keys - todo ==> now[k] == more[k])
    && (forall k :: k in old_ ==> now[k] == old_[k])
  }

  lemma OneMoreContext(contexts: map<Key, Context>, todo: set<Key>, k: Key)
    requires k in todo && todo <= contexts.Keys
    ensures ContextServices(contexts - (todo - {k}))
         == ContextServices(contexts - todo) + if contexts[k].isApp then DependentServices(contexts[k].cls) else {}
  {
    var a, b := contexts - todo, contexts - (todo - {k});
    assert b == a[k := contexts[k]];
    forall s | s in ContextServices(a)
      ensures s in ContextServices(b)
    {
      var j :| j in a && a[j].isApp && s in DependentServices(a[j].cls);
      assert j in b && b[j] == a[j];
    }
    if contexts[k].isApp {
      forall s | s in DependentServices(contexts[k].cls)
        ensures s in ContextServices(b)
      {
        assert k in b && b[k].isApp;
      }
    }
  }

  /** An application is found: its contexts are registered, and its services queued. */
  method LoadApp(app: App, rest: seq<Name>, old_: map<Key, Context>)
      returns (ok: bool, contexts: map<Key, Context>, work: seq<Name>)
    ensures ok <==> !Conflict(old_, app)
    ensures ok ==> contexts == old_ + app.contexts
    ensures ok ==> exists added :: Queued(app, rest, contexts, added) && work == rest + added
    ensures !ok ==> Conflict(contexts, app)
  {
    var services;
    work := rest;
    ok, contexts, services := AddContexts(old_, app);
    if !ok {
      return false, old_, rest;
    }
    services := services + (DependentServices(app.cls) - Modules(contexts));
    assert services == Services(app, contexts);
    var added := Listing(services - Elements(rest));
    assert Queued(app, rest, contexts, added);
    work := rest + added;
  }

  /**
   Ends when the dependencies are acyclic; if it does not fail, every name asked for and every
   dependency of what was loaded is settled, and all contexts are registered. Nothing is loaded or
   registered but what a chain of dependencies from the names asked for calls for, and a name asked
   for is loaded unless it is the module of a context of an application asked for before.
   */
  method LoadApps(env: Env, names: seq<Name>, ghost rank: Name -> nat)
      returns (ok: bool, apps: set<Name>, contexts: map<Key, Context>)
    requires Acyclic(Dependencies(env), rank)
    ensures ok ==> AllLoaded(env, names, apps, contexts) && ContextsOf(env, apps, contexts)
    ensures ok ==> OrderDecides(env, names, apps)
    ensures OnlyReached(env, names, apps)
    ensures !ok ==> exists n :: n in env && n in apps && Conflict(contexts, env[n])
  {
    ghost var most := NeedsAreBounded(env, env.Keys);
    var work := names;
    apps, contexts := {}, map[];
    ghost var turns: nat := 0;
    LoopStarts(env, names);
    while work != []
      invariant LoopOk(env, names, State(work, apps, contexts), turns)
      decreases Weight(work, rank, most)
    {
      ghost var s := State(work, apps, contexts);
      var n := work[0];
      work := work[1..];
      if n !in Modules(contexts) && n in env {
        FoundIsReached(env, names, s);
        apps := apps + {n};
        ok, contexts, work := LoadApp(env[n], work, contexts);
        if !ok {
          return;
        }
      }
      ghost var t := State(work, apps, contexts);
      assert Turn(env, s, t);
      TurnLowersWeight(env, s, t, rank, most);
      TurnKeepsLoop(env, names, s, t, turns);
      turns := turns + 1;
    }
    ok := true;
    LoopEnds(env, names, State(work, apps, contexts), turns);
  }
}
