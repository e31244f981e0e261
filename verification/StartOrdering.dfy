/** `_resolve_order`: a first-in first-out worklist over in-degree counters. */
module StartOrdering {
  import opened Wrappers
  import opened ServiceGraph

  datatype OrderError = MissingDependencies(pairs: seq<(string, string)>) | CycleDetected

  // ---- Dependencies not registered ----

  function MissingOf(deps: Deps, v: string, ds: seq<string>): seq<(string, string)> {
    if ds == [] then []
    else (if ds[0] in deps then [] else [(v, ds[0])]) + MissingOf(deps, v, ds[1..])
  }

  /** The pairs (service, dependency) whose dependency is unknown, in registration order. */
  function Missing(deps: Deps, names: seq<string>): seq<(string, string)> {
    if names == [] then []
    else
      (if names[0] in deps then MissingOf(deps, names[0], deps[names[0]]) else []) + Missing(deps, names[1..])
  }

  lemma {:induction false} MissingOfEmpty(deps: Deps, v: string, ds: seq<string>)
    ensures MissingOf(deps, v, ds) == [] <==> forall d :: d in ds ==> d in deps
  {
    if ds != [] {
      MissingOfEmpty(deps, v, ds[1..]);
      assert ds == [ds[0]] + ds[1..];
    }
  }

  lemma {:induction false} MissingEmpty(deps: Deps, names: seq<string>)
    ensures Missing(deps, names) == [] <==>
              forall v, d :: v in names && v in deps && d in deps[v] ==> d in deps
  {
    if names != [] {
      MissingEmpty(deps, names[1..]);
      assert names == [names[0]] + names[1..];
      if names[0] in deps {
        MissingOfEmpty(deps, names[0], deps[names[0]]);
      }
    }
  }

  /** The missing pairs are exactly the mentions of unregistered dependencies. */
  lemma {:induction false} MissingMeans(deps: Deps, names: seq<string>, v: string, d: string)
    ensures (v, d) in Missing(deps, names) <==> v in names && v in deps && d in deps[v] && d !in deps
  {
    if names != [] {
      MissingMeans(deps, names[1..], v, d);
      assert names == [names[0]] + names[1..];
      if names[0] in deps {
        MissingOfMeans(deps, names[0], deps[names[0]], v, d);
      }
    }
  }

  lemma {:induction false} MissingOfMeans(deps: Deps, name: string, ds: seq<string>, v: string, d: string)
    ensures (v, d) in MissingOf(deps, name, ds) <==> v == name && d in ds && d !in deps
  {
    if ds != [] {
      MissingOfMeans(deps, name, ds[1..], v, d);
      assert ds == [ds[0]] + ds[1..];
    }
  }

  // ---- Counting what a service still waits for ----

  /** How many entries of `ds` are not in `done`, repeated entries counted each time. */
  function Undone(ds: seq<string>, done: set<string>): nat {
    if ds == [] then 0 else (if ds[0] in done then 0 else 1) + Undone(ds[1..], done)
  }

  lemma {:induction false} UndoneStep(ds: seq<string>, done: set<string>, x: string)
    requires x !in done
    ensures Undone(ds, done) == Undone(ds, done + {x}) + multiset(ds)[x]
  {
    if ds != [] {
      UndoneStep(ds[1..], done, x);
      assert ds == [ds[0]] + ds[1..];
    }
  }

  lemma {:induction false} UndoneZero(ds: seq<string>, done: set<string>)
    ensures Undone(ds, done) == 0 <==> forall d :: d in ds ==> d in done
  {
    if ds != [] {
      UndoneZero(ds[1..], done);
      assert ds == [ds[0]] + ds[1..];
    }
  }

  lemma {:induction false} UndoneNothing(ds: seq<string>)
    ensures Undone(ds, {}) == |ds|
  {
    if ds != [] {
      UndoneNothing(ds[1..]);
    }
  }

  // ---- The reversed graph ----

  /** `graph[d]` lists v once for every time v names d. */
  ghost predicate Reversed(deps: Deps, graph: map<string, seq<string>>) {
    && graph.Keys == deps.Keys
    && (forall d, v :: d in graph && v in graph[d] ==> v in deps)
    && (forall d, v :: d in graph && v in deps ==> multiset(graph[d])[v] == multiset(deps[v])[d])
  }

  /** How often `graph[d]` lists `v`. */
  function Edges(graph: map<string, seq<string>>, d: string, v: string): nat
    requires d in graph
  {
    multiset(graph[d])[v]
  }

  method AddEdges(graph: map<string, seq<string>>, name: string, ds: seq<string>)
    returns (graph': map<string, seq<string>>, count: nat)
    requires forall d :: d in ds ==> d in graph
    ensures graph'.Keys == graph.Keys && count == |ds|
    ensures forall d, v :: d in graph && v in graph'[d] ==> v in graph[d] || v == name
    ensures forall d, v :: d in graph ==>
              Edges(graph', d, v) == Edges(graph, d, v) + if v == name then multiset(ds)[d] else 0
  {
    graph', count := graph, 0;
    for j := 0 to |ds|
      invariant graph'.Keys == graph.Keys && count == j
      invariant forall d, v :: d in graph && v in graph'[d] ==> v in graph[d] || v == name
      invariant forall d, v :: d in graph ==>
                  Edges(graph', d, v) == Edges(graph, d, v) + if v == name then multiset(ds[..j])[d] else 0
    {
      var dep := ds[j];
      graph' := graph'[dep := graph'[dep] + [name]];
      count := count + 1;
      assert ds[..j + 1] == ds[..j] + [dep];
    }
    assert ds[..|ds|] == ds;
  }

  /** The edges out of the services in `seen` are all in, and no others. */
  ghost predicate Covers(deps: Deps, graph: map<string, seq<string>>, seen: set<string>) {
    && graph.Keys == deps.Keys
    && (forall d, v :: d in graph && v in graph[d] ==> v in deps)
    && (forall d, v {:trigger Edges(graph, d, v)} :: d in graph && v in deps ==>
          Edges(graph, d, v) == if v in seen then multiset(deps[v])[d] else 0)
  }

  lemma CoversStep(deps: Deps, graph: map<string, seq<string>>, seen: set<string>,
                   name: string, graph': map<string, seq<string>>)
    requires Covers(deps, graph, seen) && name in deps && name !in seen
    requires graph'.Keys == graph.Keys
    requires forall d, v :: d in graph && v in graph'[d] ==> v in graph[d] || v == name
    requires forall d, v {:trigger Edges(graph', d, v)} :: d in graph ==>
               Edges(graph', d, v) == Edges(graph, d, v) + if v == name then multiset(deps[name])[d] else 0
    ensures Covers(deps, graph', seen + {name})
  {
  }

  method AddService(deps: Deps, graph: map<string, seq<string>>, incoming: map<string, nat>, name: string)
    returns (graph': map<string, seq<string>>, incoming': map<string, nat>)
    requires Closed(deps) && name in deps && name !in incoming
    requires Covers(deps, graph, incoming.Keys)
    ensures Covers(deps, graph', incoming'.Keys)
    ensures incoming' == incoming[name := |deps[name]|]
  {
    var count;
    graph', count := AddEdges(graph, name, deps[name]);
    CoversStep(deps, graph, incoming.Keys, name, graph');
    incoming' := incoming[name := count];
    assert incoming'.Keys == incoming.Keys + {name};
  }

  method BuildGraph(names: seq<string>, deps: Deps)
    returns (graph: map<string, seq<string>>, incoming: map<string, nat>)
    requires Distinct(names) && Elements(names) == deps.Keys && Closed(deps)
    ensures Reversed(deps, graph)
    ensures incoming.Keys == deps.Keys
    ensures forall v :: v in deps ==> incoming[v] == |deps[v]|
  {
    graph := map v | v in deps.Keys :: [];
    incoming := map[];
    for i := 0 to |names|
      invariant forall v :: v in incoming <==> v in names[..i]
      invariant forall v :: v in incoming ==> v in deps && incoming[v] == |deps[v]|
      invariant Covers(deps, graph, incoming.Keys)
    {
      assert names[i] in Elements(names);
      graph, incoming := AddService(deps, graph, incoming, names[i]);
    }
    assert incoming.Keys == deps.Keys by {
      assert forall v :: v in deps ==> v in Elements(names);
    }
    CoversAll(deps, graph);
  }

  lemma CoversAll(deps: Deps, graph: map<string, seq<string>>)
    requires Covers(deps, graph, deps.Keys)
    ensures Reversed(deps, graph)
  {
    assert forall d, v :: d in graph && v in deps ==> Edges(graph, d, v) == multiset(deps[v])[d];
  }

  // ---- The worklist ----

  /** `all` is what has been ordered followed by what is queued. */
  ghost predicate ListOk(deps: Deps, all: seq<string>) {
    Distinct(all) && forall v :: v in all ==> v in deps
  }

  /** Each counter is what its service waits for, plus the decrements of `pending` still to be made. */
  ghost predicate CountersOk(deps: Deps, incoming: map<string, nat>, done: set<string>,
                             pending: multiset<string>)
  {
    && incoming.Keys == deps.Keys
    && forall v :: v in deps ==> incoming[v] == Undone(deps[v], done) + pending[v]
  }

  /** Exactly the services that wait for nothing have been listed. */
  ghost predicate ReadyListed(deps: Deps, incoming: map<string, nat>, all: seq<string>) {
    forall v :: v in deps && v in incoming ==> (v in all <==> incoming[v] == 0)
  }

  ghost predicate LevelsAlong(deps: Deps, level: map<string, nat>, all: seq<string>) {
    && LevelsOk(deps, level)
    && (forall v :: v in level <==> v in all)
    && forall i, j :: 0 <= i < j < |all| && all[i] in level && all[j] in level ==> level[all[i]] <= level[all[j]]
  }

  /** Nothing listed lies more than one level above `name`. */
  ghost predicate Within(level: map<string, nat>, all: seq<string>, name: string) {
    name in level && forall v :: v in all && v in level ==> level[v] <= level[name] + 1
  }

  /** A service whose dependencies are all ordered, the last of them just now, lies one level above. */
  lemma ReadyLevel(deps: Deps, level: map<string, nat>, order: seq<string>, all: seq<string>, v: string)
    requires order != [] && order <= all && v in deps && Last(order) in deps[v] && v !in level
    requires LevelsAlong(deps, level, all) && forall d :: d in deps[v] ==> d in order
    ensures Last(order) in level
    ensures LevelsOk(deps, level[v := level[Last(order)] + 1])
  {
    var name := Last(order);
    assert all[|order| - 1] == name;
    var level' := level[v := level[name] + 1];
    forall d | d in deps[v] ensures d in level && level[d] < level'[v] {
      var i :| 0 <= i < |order| && order[i] == d;
      assert all[i] == d;
    }
    assert LevelOk(deps, level', v);
    forall u {:trigger LevelOk(deps, level', u)} | u in level' ensures LevelOk(deps, level', u) {
      if u != v {
        assert LevelOk(deps, level, u);
      }
    }
  }

  lemma AppendDistinct(all: seq<string>, v: string)
    requires Distinct(all) && v !in all
    ensures Distinct(all + [v])
  {
  }

  lemma ListReady(deps: Deps, level: map<string, nat>, order: seq<string>, all: seq<string>, v: string)
    returns (level': map<string, nat>)
    requires order != [] && order <= all && v in deps && Last(order) in deps[v]
    requires ListOk(deps, all) && LevelsAlong(deps, level, all) && Within(level, all, Last(order))
    requires v !in all && (forall d :: d in deps[v] ==> d in order)
    ensures ListOk(deps, all + [v])
    ensures LevelsAlong(deps, level', all + [v]) && Within(level', all + [v], Last(order))
  {
    ReadyLevel(deps, level, order, all, v);
    AppendDistinct(all, v);
    level' := level[v := level[Last(order)] + 1];
    AppendLevels(level, level', all, v, level[Last(order)] + 1);
  }

  lemma AppendLevels(level: map<string, nat>, level': map<string, nat>, all: seq<string>, v: string, top: nat)
    requires v !in all && level' == level[v := top]
    requires forall u :: u in level <==> u in all
    requires forall i, j :: 0 <= i < j < |all| && all[i] in level && all[j] in level ==> level[all[i]] <= level[all[j]]
    requires forall u :: u in all && u in level ==> level[u] <= top
    ensures forall u :: u in level' <==> u in all + [v]
    ensures forall i, j :: 0 <= i < j < |all + [v]| && (all + [v])[i] in level' && (all + [v])[j] in level' ==>
                             level'[(all + [v])[i]] <= level'[(all + [v])[j]]
    ensures forall u :: u in all + [v] && u in level' ==> level'[u] <= top
  {
  }

  lemma Decrement(deps: Deps, incoming: map<string, nat>, done: set<string>, v: string, rest: multiset<string>)
    requires v in deps && CountersOk(deps, incoming, done, multiset{v} + rest)
    ensures incoming[v] > 0
    ensures CountersOk(deps, incoming[v := incoming[v] - 1], done, rest)
  {
  }

  method ReleaseOne(deps: Deps, order: seq<string>, queue: seq<string>, incoming: map<string, nat>,
                    v: string, ghost rest: multiset<string>, ghost level: map<string, nat>)
    returns (queue': seq<string>, incoming': map<string, nat>, ghost level': map<string, nat>)
    requires order != [] && v in deps && Last(order) in deps[v]
    requires CountersOk(deps, incoming, Elements(order), multiset{v} + rest)
    requires ListOk(deps, order + queue) && ReadyListed(deps, incoming, order + queue)
    requires LevelsAlong(deps, level, order + queue) && Within(level, order + queue, Last(order))
    ensures CountersOk(deps, incoming', Elements(order), rest)
    ensures ListOk(deps, order + queue') && ReadyListed(deps, incoming', order + queue')
    ensures LevelsAlong(deps, level', order + queue') && Within(level', order + queue', Last(order))
  {
    Decrement(deps, incoming, Elements(order), v, rest);
    incoming' := incoming[v := incoming[v] - 1];
    if incoming'[v] == 0 {
      UndoneZero(deps[v], Elements(order));
      level' := ListReady(deps, level, order, order + queue, v);
      queue' := queue + [v];
      assert order + queue' == order + queue + [v];
    } else {
      queue', level' := queue, level;
    }
  }

  lemma HeadAndRest(s: seq<string>, k: nat)
    requires k <= |s|
    ensures k == 0 ==> multiset(s[k..]) == multiset(s)
    ensures k == |s| ==> multiset(s[k..]) == multiset{}
    ensures k < |s| ==> multiset(s[k..]) == multiset{s[k]} + multiset(s[k + 1..])
  {
    assert k == 0 ==> s[k..] == s;
    assert k < |s| ==> s[k..] == [s[k]] + s[k + 1..];
  }

  method Release(deps: Deps, order: seq<string>, queue: seq<string>, incoming: map<string, nat>,
                 downstream: seq<string>, ghost level: map<string, nat>)
    returns (queue': seq<string>, incoming': map<string, nat>, ghost level': map<string, nat>)
    requires order != [] && forall v :: v in downstream ==> v in deps && Last(order) in deps[v]
    requires CountersOk(deps, incoming, Elements(order), multiset(downstream))
    requires ListOk(deps, order + queue) && ReadyListed(deps, incoming, order + queue)
    requires LevelsAlong(deps, level, order + queue) && Within(level, order + queue, Last(order))
    ensures CountersOk(deps, incoming', Elements(order), multiset{})
    ensures ListOk(deps, order + queue') && ReadyListed(deps, incoming', order + queue')
    ensures LevelsAlong(deps, level', order + queue')
  {
    hide CountersOk, ListOk, ReadyListed, LevelsAlong, Within;
    queue', incoming', level' := queue, incoming, level;
    HeadAndRest(downstream, 0);
    for k := 0 to |downstream|
      invariant CountersOk(deps, incoming', Elements(order), multiset(downstream[k..]))
      invariant ListOk(deps, order + queue') && ReadyListed(deps, incoming', order + queue')
      invariant LevelsAlong(deps, level', order + queue') && Within(level', order + queue', Last(order))
    {
      HeadAndRest(downstream, k);
      queue', incoming', level' :=
        ReleaseOne(deps, order, queue', incoming', downstream[k], multiset(downstream[k + 1..]), level');
    }
    HeadAndRest(downstream, |downstream|);
  }

  lemma WaitsForNothing(deps: Deps, incoming: map<string, nat>, order: seq<string>, all: seq<string>, v: string)
    requires CountersOk(deps, incoming, Elements(order), multiset{}) && ReadyListed(deps, incoming, all)
    requires v in deps
    ensures v in all <==> forall d :: d in deps[v] ==> d in order
  {
    UndoneZero(deps[v], Elements(order));
  }

  lemma PopCounters(deps: Deps, graph: map<string, seq<string>>, incoming: map<string, nat>,
                    order: seq<string>, name: string)
    requires Reversed(deps, graph) && name in deps && name !in order
    requires CountersOk(deps, incoming, Elements(order), multiset{})
    ensures CountersOk(deps, incoming, Elements(order + [name]), multiset(graph[name]))
    ensures forall v :: v in graph[name] ==> v in deps && name in deps[v]
  {
    assert Elements(order + [name]) == Elements(order) + {name};
    forall v | v in deps
      ensures incoming[v] == Undone(deps[v], Elements(order + [name])) + multiset(graph[name])[v]
    {
      UndoneStep(deps[v], Elements(order), name);
    }
    forall v | v in graph[name] ensures name in deps[v] {
      assert v in multiset(graph[name]);
      assert multiset(deps[v])[name] > 0;
    }
  }

  lemma PopWithin(deps: Deps, incoming: map<string, nat>, level: map<string, nat>,
                  order: seq<string>, queue: seq<string>)
    requires queue != [] && ListOk(deps, order + queue)
    requires CountersOk(deps, incoming, Elements(order), multiset{}) && ReadyListed(deps, incoming, order + queue)
    requires LevelsAlong(deps, level, order + queue)
    ensures Within(level, order + queue, queue[0])
  {
    var all, name := order + queue, queue[0];
    assert all[|order|] == name;
    forall v | v in all ensures v in level && level[v] <= level[name] + 1 {
      if level[v] > 0 {
        assert LevelOk(deps, level, v);
        var d :| d in deps[v] && d in level && level[d] == level[v] - 1;
        WaitsForNothing(deps, incoming, order, all, v);
        var i :| 0 <= i < |order| && order[i] == d;
        assert all[i] == d;
      }
    }
  }

  lemma PopOrder(deps: Deps, incoming: map<string, nat>, order: seq<string>, queue: seq<string>)
    requires queue != [] && ListOk(deps, order + queue) && DependenciesFirst(deps, order)
    requires CountersOk(deps, incoming, Elements(order), multiset{}) && ReadyListed(deps, incoming, order + queue)
    ensures queue[0] in deps && queue[0] !in order
    ensures DependenciesFirst(deps, order + [queue[0]])
  {
    var all, name := order + queue, queue[0];
    assert all[|order|] == name;
    forall i | 0 <= i < |order| ensures order[i] != name {
      assert all[i] == order[i];
    }
    WaitsForNothing(deps, incoming, order, all, name);
    var order' := order + [name];
    forall i, d | 0 <= i < |order'| && d in deps[order'[i]] ensures d in order'[..i] {
      assert order'[..i] == order[..i];
    }
  }

  lemma LeftoverWaits(deps: Deps, incoming: map<string, nat>, order: seq<string>, rest: set<string>, v: string)
    requires Closed(deps) && rest == deps.Keys - Elements(order) && v in rest
    requires CountersOk(deps, incoming, Elements(order), multiset{}) && ReadyListed(deps, incoming, order)
    ensures Waits(deps, rest, v)
  {
    WaitsForNothing(deps, incoming, order, order, v);
    var d :| d in deps[v] && d !in order;
    assert d in rest;
  }

  lemma LeftoverStuck(deps: Deps, incoming: map<string, nat>, order: seq<string>)
    requires Closed(deps) && CountersOk(deps, incoming, Elements(order), multiset{})
    requires ReadyListed(deps, incoming, order)
    ensures Stuck(deps, deps.Keys - Elements(order))
  {
    var rest := deps.Keys - Elements(order);
    forall v {:trigger Waits(deps, rest, v)} | v in rest ensures Waits(deps, rest, v) {
      LeftoverWaits(deps, incoming, order, rest, v);
    }
  }

  method InitialQueue(names: seq<string>, incoming: map<string, nat>) returns (queue: seq<string>)
    requires Distinct(names) && forall v :: v in names ==> v in incoming
    ensures Distinct(queue)
    ensures forall v :: v in queue <==> v in names && v in incoming && incoming[v] == 0
  {
    queue := [];
    for i := 0 to |names|
      invariant Distinct(queue)
      invariant forall v :: v in queue <==> v in names[..i] && v in incoming && incoming[v] == 0
    {
      if incoming[names[i]] == 0 {
        queue := queue + [names[i]];
      }
      assert names[..i + 1] == names[..i] + [names[i]];
    }
    assert names[..|names|] == names;
  }

  lemma InitialState(deps: Deps, names: seq<string>, incoming: map<string, nat>, queue: seq<string>)
    returns (level: map<string, nat>)
    requires Distinct(names) && Elements(names) == deps.Keys && incoming.Keys == deps.Keys
    requires forall v :: v in deps ==> incoming[v] == |deps[v]|
    requires Distinct(queue) && forall v :: v in queue <==> v in names && v in incoming && incoming[v] == 0
    ensures CountersOk(deps, incoming, {}, multiset{})
    ensures ListOk(deps, queue) && ReadyListed(deps, incoming, queue) && LevelsAlong(deps, level, queue)
  {
    assert forall v :: v in names <==> v in Elements(names);
    forall v | v in deps ensures incoming[v] == Undone(deps[v], {}) {
      UndoneNothing(deps[v]);
    }
    level := map v | v in Elements(queue) :: 0;
    forall v | v in level ensures LevelOk(deps, level, v) {
      assert |deps[v]| == 0;
    }
  }

  /** What the worklist loop keeps. */
  ghost predicate LoopOk(deps: Deps, order: seq<string>, queue: seq<string>,
                         incoming: map<string, nat>, level: map<string, nat>)
  {
    && CountersOk(deps, incoming, Elements(order), multiset{})
    && ListOk(deps, order + queue) && ReadyListed(deps, incoming, order + queue)
    && LevelsAlong(deps, level, order + queue)
    && DependenciesFirst(deps, order)
  }

  lemma Shift(order: seq<string>, queue: seq<string>)
    requires queue != []
    ensures order + queue == (order + [queue[0]]) + queue[1..]
  {
  }

  lemma EmptyEnds(order: seq<string>, queue: seq<string>)
    ensures order == [] ==> order + queue == queue && Elements(order) == {}
    ensures queue == [] ==> order + queue == order
  {
  }

  lemma Pop(deps: Deps, graph: map<string, seq<string>>, order: seq<string>, queue: seq<string>,
            incoming: map<string, nat>, level: map<string, nat>)
    requires queue != [] && Reversed(deps, graph) && LoopOk(deps, order, queue, incoming, level)
    ensures queue[0] in graph
    ensures var name := queue[0];
            var all := (order + [name]) + queue[1..];
            && (forall v :: v in graph[name] ==> v in deps && name in deps[v])
            && CountersOk(deps, incoming, Elements(order + [name]), multiset(graph[name]))
            && ListOk(deps, all) && ReadyListed(deps, incoming, all)
            && LevelsAlong(deps, level, all) && Within(level, all, name)
            && DependenciesFirst(deps, order + [name])
  {
    Shift(order, queue);
    PopOrder(deps, incoming, order, queue);
    PopWithin(deps, incoming, level, order, queue);
    PopCounters(deps, graph, incoming, order, queue[0]);
  }

  /** One turn: take the head of the queue and release what waited for it. */
  method Turn(deps: Deps, graph: map<string, seq<string>>, order: seq<string>, queue: seq<string>,
              incoming: map<string, nat>, ghost level: map<string, nat>)
    returns (order': seq<string>, queue': seq<string>, incoming': map<string, nat>, ghost level': map<string, nat>)
    requires queue != [] && Reversed(deps, graph) && LoopOk(deps, order, queue, incoming, level)
    ensures order' == order + [queue[0]] && LoopOk(deps, order', queue', incoming', level')
  {
    var name := queue[0];
    Pop(deps, graph, order, queue, incoming, level);
    order' := order + [name];
    queue', incoming', level' := Release(deps, order', queue[1..], incoming, graph[name], level);
  }

  /** The worklist loop. It lists everything exactly when there is no cycle. */
  method Worklist(names: seq<string>, deps: Deps) returns (order: seq<string>)
    requires Distinct(names) && Elements(names) == deps.Keys && Closed(deps)
    ensures |order| == |names| <==> !HasCycle(deps)
    ensures |order| == |names| ==> StartOrder(deps, order) && Layered(deps, order)
  {
    var graph, incoming := BuildGraph(names, deps);
    var queue := InitialQueue(names, incoming);
    ghost var level := InitialState(deps, names, incoming, queue);
    order := [];
    EmptyEnds(order, queue);
    DistinctSize(names);
    while queue != []
      invariant LoopOk(deps, order, queue, incoming, level)
      decreases |names| - |order|
    {
      ListFits(deps, order + queue);
      order, queue, incoming, level := Turn(deps, graph, order, queue, incoming, level);
    }
    WhenDone(deps, order, incoming, level) by {
      EmptyEnds(order, queue);
    }
  }

  lemma WhenDone(deps: Deps, order: seq<string>, incoming: map<string, nat>, level: map<string, nat>)
    requires Closed(deps) && order + [] == order && LoopOk(deps, order, [], incoming, level)
    ensures |order| == |deps.Keys| <==> !HasCycle(deps)
    ensures |order| == |deps.Keys| ==> StartOrder(deps, order) && Layered(deps, order)
  {
    ListFits(deps, order);
    if |order| == |deps.Keys| {
      OrderMeansNoCycle(deps, order);
      LevelsGiveLayers(deps, order, level);
    } else {
      LeftoverStuck(deps, incoming, order);
      SomethingLeft(deps.Keys, Elements(order));
      StuckMeansCycle(deps, deps.Keys - Elements(order));
    }
  }

  lemma SomethingLeft(whole: set<string>, part: set<string>)
    requires part < whole
    ensures whole - part != {}
  {
    var x :| x in whole && x !in part;
    assert x in whole - part;
  }

  lemma ListFits(deps: Deps, all: seq<string>)
    requires ListOk(deps, all)
    ensures |all| <= |deps.Keys|
    ensures |all| == |deps.Keys| ==> Elements(all) == deps.Keys
    ensures |all| != |deps.Keys| ==> Elements(all) < deps.Keys
  {
    DistinctSize(all);
    var elements := Elements(all);
    assert elements <= deps.Keys;
    SubsetSize(elements, deps.Keys);
    if elements == deps.Keys {
      assert |all| == |deps.Keys|;
    }
  }

  /** `_resolve_order` on the registered services. */
  method ResolveOrder(names: seq<string>, deps: Deps) returns (result: Result<seq<string>, OrderError>)
    requires Distinct(names) && Elements(names) == deps.Keys
    ensures !Closed(deps) <==> result.Err? && result.error.MissingDependencies?
    ensures !Closed(deps) ==> result == Err(MissingDependencies(Missing(deps, names)))
    ensures Closed(deps) ==> (result.Ok? <==> !HasCycle(deps))
    ensures result.Ok? ==> StartOrder(deps, result.value) && Layered(deps, result.value)
  {
    MissingEmpty(deps, names);
    assert forall v :: v in names <==> v in Elements(names);
    var missing := Missing(deps, names);
    if missing != [] {
      return Err(MissingDependencies(missing));
    }
    var order := Worklist(names, deps);
    if |order| != |names| {
      return Err(CycleDetected);
    }
    return Ok(order);
  }
}
