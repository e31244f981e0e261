/** The service manager: registration, initialisation with rollback, start and stop. The services'
    own code is outside; the calls made to them are logged in `calls`. */
module ServiceLifecycle {
  import opened Wrappers
  import opened ServiceGraph
  import StartOrdering

  datatype Call =
    | Initialize(name: string, visible: set<string>)
    | Start(name: string)
    | Stop(name: string)

  datatype LifecycleError =
    | NameRequired
    | AlreadyRegistered(name: string)
    | BadDependencies(reason: StartOrdering.OrderError)
    | InitializeFailed(name: string)
    | StartFailed(name: string)

  // ---- The traces ----

  /** The first k initialisations; the i-th sees the base context and the i services before it. */
  function Inits(order: seq<string>, base: set<string>, k: nat): (calls: seq<Call>)
    requires k <= |order|
    ensures |calls| == k
    ensures forall i :: 0 <= i < k ==> calls[i] == Initialize(order[i], base + Elements(order[..i]))
  {
    seq(k, i requires 0 <= i < k => Initialize(order[i], base + Elements(order[..i])))
  }

  function Starts(order: seq<string>, k: nat): (calls: seq<Call>)
    requires k <= |order|
    ensures |calls| == k
    ensures forall i :: 0 <= i < k ==> calls[i] == Start(order[i])
  {
    seq(k, i requires 0 <= i < k => Start(order[i]))
  }

  /** The first k services stopped, last one first. */
  function Stops(order: seq<string>, k: nat): (calls: seq<Call>)
    requires k <= |order|
    ensures |calls| == k
    ensures forall i :: 0 <= i < k ==> calls[i] == Stop(order[k - 1 - i])
  {
    seq(k, i requires 0 <= i < k => Stop(order[k - 1 - i]))
  }

  /** Those of the first k services whose stop raises, in the order they are stopped. */
  function Warnings(order: seq<string>, k: nat, stopRaising: set<string>): seq<string>
    requires k <= |order|
  {
    if k == 0 then []
    else (if order[k - 1] in stopRaising then [order[k - 1]] else []) + Warnings(order, k - 1, stopRaising)
  }

  /** Where the first raising service stands, or the length when none raises. */
  function FirstRaising(order: seq<string>, raising: set<string>): (k: nat)
    ensures k <= |order|
    ensures forall i :: 0 <= i < k ==> order[i] !in raising
    ensures k < |order| ==> order[k] in raising
  {
    if order == [] || order[0] in raising then 0 else 1 + FirstRaising(order[1..], raising)
  }

  lemma InitsStep(order: seq<string>, base: set<string>, k: nat)
    requires k < |order|
    ensures Inits(order, base, k + 1) ==
              Inits(order, base, k) + [Initialize(order[k], base + Elements(order[..k]))]
    ensures order[..k + 1] == order[..k] + [order[k]]
    ensures base + Elements(order[..k + 1]) == base + Elements(order[..k]) + {order[k]}
  {
  }

  lemma StartsStep(order: seq<string>, k: nat)
    requires k < |order|
    ensures Starts(order, k + 1) == Starts(order, k) + [Start(order[k])]
    ensures order[..k + 1] == order[..k] + [order[k]]
  {
  }

  lemma NothingAdded(order: seq<string>, base: set<string>)
    ensures base + Elements(order[..0]) == base
  {
  }

  lemma ConcatThree<T>(a: seq<T>, b: seq<T>, c: seq<T>)
    ensures (a + b) + c == a + (b + c)
  {
  }

  lemma StopsOfPrefix(order: seq<string>, k: nat)
    requires k <= |order|
    ensures Stops(order[..k], k) == Stops(order, k)
  {
  }

  lemma {:induction false} WarningsOfPrefix(order: seq<string>, n: nat, k: nat, stopRaising: set<string>)
    requires k <= n <= |order|
    ensures Warnings(order[..n], k, stopRaising) == Warnings(order, k, stopRaising)
  {
    if k > 0 {
      WarningsOfPrefix(order, n, k - 1, stopRaising);
    }
  }

  lemma FirstRaisingAt(order: seq<string>, raising: set<string>, k: nat)
    requires k <= |order| && (forall i :: 0 <= i < k ==> order[i] !in raising)
    requires k < |order| ==> order[k] in raising
    ensures FirstRaising(order, raising) == k
  {
  }

  /** The calls made while bringing services up: all of them, or those up to the one that raises
      followed by the stops of the ones before it. */
  function InitTrace(order: seq<string>, base: set<string>, raising: set<string>): seq<Call> {
    var k := FirstRaising(order, raising);
    if k == |order| then Inits(order, base, k) else Inits(order, base, k + 1) + Stops(order, k)
  }

  function StartTrace(order: seq<string>, raising: set<string>): seq<Call> {
    var k := FirstRaising(order, raising);
    if k == |order| then Starts(order, k) else Starts(order, k + 1) + Stops(order, k)
  }

  class ServiceManager {
    var names: seq<string>
    var deps: Deps
    var order: seq<string>
    var context: set<string>
    var calls: seq<Call>
    var warnings: seq<string>

    ghost predicate Valid()
      reads this
    {
      Distinct(names) && Elements(names) == deps.Keys
    }

    constructor ()
      ensures Valid() && deps == map[] && order == [] && calls == [] && warnings == []
    {
      names, deps, order, context, calls, warnings := [], map[], [], {}, [], [];
    }

    method Register(name: string, dependencies: seq<string>) returns (result: Result<(), LifecycleError>)
      requires Valid()
      modifies this`names, this`deps
      ensures Valid()
      ensures name == "" ==> result == Err(NameRequired)
      ensures name != "" && name in old(deps) ==> result == Err(AlreadyRegistered(name))
      ensures result.Err? ==> names == old(names) && deps == old(deps)
      ensures result.Ok? ==> name != "" && name !in old(deps)
      ensures result.Ok? ==> names == old(names) + [name] && deps == old(deps)[name := dependencies]
      ensures name != "" && name !in old(deps) ==> result.Ok?
    {
      if name == "" {
        return Err(NameRequired);
      }
      if name in deps {
        return Err(AlreadyRegistered(name));
      }
      assert name !in Elements(names);
      names := names + [name];
      deps := deps[name := dependencies];
      return Ok(());
    }

    /** Stops the given services, last one first; one whose stop raises is only logged. */
    method StopReversed(services: seq<string>, stopRaising: set<string>)
      modifies this`calls, this`warnings
      ensures calls == old(calls) + Stops(services, |services|)
      ensures warnings == old(warnings) + Warnings(services, |services|, stopRaising)
    {
      var k := |services|;
      while k > 0
        invariant 0 <= k <= |services|
        invariant calls == old(calls) + Stops(services, |services|)[..|services| - k]
        invariant warnings + Warnings(services, k, stopRaising)
                  == old(warnings) + Warnings(services, |services|, stopRaising)
      {
        k := k - 1;
        calls := calls + [Stop(services[k])];
        if services[k] in stopRaising {
          warnings := warnings + [services[k]];
        }
      }
    }

    /** `raising` are the services whose initialize raises, `stopRaising` those whose stop does. */
    method InitializeAll(base: set<string>, raising: set<string>, stopRaising: set<string>)
      returns (result: Result<(), LifecycleError>)
      requires Valid()
      modifies this`order, this`context, this`calls, this`warnings
      ensures !Closed(deps) || HasCycle(deps) <==> result.Err? && result.error.BadDependencies?
      ensures !Closed(deps) || HasCycle(deps) ==>
                order == old(order) && calls == old(calls) && warnings == old(warnings) && context == base
      ensures Closed(deps) && !HasCycle(deps) ==>
                var k := FirstRaising(order, raising);
                && StartOrder(deps, order) && Layered(deps, order)
                && calls == old(calls) + InitTrace(order, base, raising)
                && warnings == old(warnings) + (if k == |order| then [] else Warnings(order, k, stopRaising))
                && context == base + Elements(order[..k])
                && result == if k == |order| then Ok(()) else Err(InitializeFailed(order[k]))
    {
      hide ServiceGraph.Closed, ServiceGraph.HasCycle, ServiceGraph.StartOrder, ServiceGraph.Layered, InitTrace;
      context := base;
      var resolved := StartOrdering.ResolveOrder(names, deps);
      if resolved.Err? {
        return Err(BadDependencies(resolved.error));
      }
      order := resolved.value;
      result := BringUp(base, raising, stopRaising);
    }

    method BringUp(base: set<string>, raising: set<string>, stopRaising: set<string>)
      returns (result: Result<(), LifecycleError>)
      requires context == base
      modifies this`context, this`calls, this`warnings
      ensures var k := FirstRaising(order, raising);
              && calls == old(calls) + InitTrace(order, base, raising)
              && warnings == old(warnings) + (if k == |order| then [] else Warnings(order, k, stopRaising))
              && context == base + Elements(order[..k])
              && result == if k == |order| then Ok(()) else Err(InitializeFailed(order[k]))
    {
      var initialized := InitializeInTurn(base, raising);
      var k := |initialized|;
      if k == |order| {
        return Ok(());
      }
      ConcatThree(old(calls), Inits(order, base, k + 1), Stops(order, k));
      StopReversed(initialized, stopRaising);
      StopsOfPrefix(order, k);
      WarningsOfPrefix(order, k, k, stopRaising);
      return Err(InitializeFailed(order[k]));
    }

    /** Initialises in order up to and including the first service that raises. */
    method InitializeInTurn(base: set<string>, raising: set<string>) returns (initialized: seq<string>)
      requires context == base
      modifies this`context, this`calls
      ensures var k := FirstRaising(order, raising);
              && initialized == order[..k]
              && context == base + Elements(order[..k])
              && calls == old(calls) + Inits(order, base, if k == |order| then k else k + 1)
    {
      hide Elements;
      initialized := [];
      NothingAdded(order, base);
      for k := 0 to |order|
        invariant initialized == order[..k]
        invariant forall i :: 0 <= i < k ==> order[i] !in raising
        invariant context == base + Elements(order[..k])
        invariant calls == old(calls) + Inits(order, base, k)
      {
        var name := order[k];
        InitsStep(order, base, k);
        ConcatThree(old(calls), Inits(order, base, k), [Initialize(name, context)]);
        calls := calls + [Initialize(name, context)];
        if name in raising {
          FirstRaisingAt(order, raising, k);
          return;
        }
        context := context + {name};
        initialized := initialized + [name];
      }
      FirstRaisingAt(order, raising, |order|);
    }

    /** `raising` are the services whose start raises, `stopRaising` those whose stop does. */
    method StartAll(raising: set<string>, stopRaising: set<string>) returns (result: Result<(), LifecycleError>)
      modifies this`calls, this`warnings
      ensures var k := FirstRaising(order, raising);
              && calls == old(calls) + StartTrace(order, raising)
              && warnings == old(warnings) + (if k == |order| then [] else Warnings(order, k, stopRaising))
              && result == if k == |order| then Ok(()) else Err(StartFailed(order[k]))
    {
      var started := StartInTurn(raising);
      var k := |started|;
      if k == |order| {
        return Ok(());
      }
      ConcatThree(old(calls), Starts(order, k + 1), Stops(order, k));
      StopReversed(started, stopRaising);
      StopsOfPrefix(order, k);
      WarningsOfPrefix(order, k, k, stopRaising);
      return Err(StartFailed(order[k]));
    }

    /** Starts in order up to and including the first service that raises. */
    method StartInTurn(raising: set<string>) returns (started: seq<string>)
      modifies this`calls
      ensures var k := FirstRaising(order, raising);
              && started == order[..k]
              && calls == old(calls) + Starts(order, if k == |order| then k else k + 1)
    {
      started := [];
      for k := 0 to |order|
        invariant started == order[..k]
        invariant forall i :: 0 <= i < k ==> order[i] !in raising
        invariant calls == old(calls) + Starts(order, k)
      {
        var name := order[k];
        StartsStep(order, k);
        ConcatThree(old(calls), Starts(order, k), [Start(name)]);
        calls := calls + [Start(name)];
        if name in raising {
          FirstRaisingAt(order, raising, k);
          return;
        }
        started := started + [name];
      }
      FirstRaisingAt(order, raising, |order|);
    }

    method StopAll(stopRaising: set<string>)
      modifies this`calls, this`warnings
      ensures calls == old(calls) + Stops(order, |order|)
      ensures warnings == old(warnings) + Warnings(order, |order|, stopRaising)
    {
      StopReversed(order, stopRaising);
    }
  }

  // ---- What the traces mean ----

  /** Service number k of the order is the first to raise, or none does and k is their number. */
  ghost predicate FirstToRaise(order: seq<string>, raising: set<string>, k: nat) {
    && k <= |order| && (forall i :: 0 <= i < k ==> order[i] !in raising)
    && (k < |order| ==> order[k] in raising)
  }

  /** A start-up call by call: everything up to the service that raises, and then, from the last one back
      to the first, a stop for each service before it. */
  lemma StartUpCalls(order: seq<string>, base: set<string>, raising: set<string>, k: nat)
    requires FirstToRaise(order, raising, k)
    ensures var inits, starts := InitTrace(order, base, raising), StartTrace(order, raising);
            && |inits| == |starts| == (if k == |order| then k else 2 * k + 1)
            && (forall i :: 0 <= i <= k && i < |order| ==>
                  && inits[i] == Initialize(order[i], base + (set x | x in order[..i]))
                  && starts[i] == Start(order[i]))
            && (k < |order| ==> forall i :: k < i <= 2 * k ==> inits[i] == starts[i] == Stop(order[2 * k - i]))
  {
    FirstRaisingAt(order, raising, k);
    assert forall i :: 0 <= i <= |order| ==> Elements(order[..i]) == set x | x in order[..i];
  }

  /** Both calls are stops, and `first` stops a service that depends on the other one's. */
  predicate StopsDependent(deps: Deps, other: Call, first: Call) {
    other.Stop? && first.Stop? && first.name in deps && other.name in deps[first.name]
  }

  /** The calls of a start-up that failed at k stop each of the services before k exactly once and no
      other, each one after everything that depends on it. */
  ghost predicate RolledBack(deps: Deps, order: seq<string>, k: nat, calls: seq<Call>)
    requires k <= |order|
  {
    && (forall n :: n in order[..k] <==> Stop(n) in calls)
    && (forall a, b :: 0 <= a < b < |calls| && calls[a].Stop? ==> calls[a] != calls[b])
    && (forall a, b :: 0 <= a < |calls| && 0 <= b < |calls| && StopsDependent(deps, calls[b], calls[a]) ==> a < b)
  }

  lemma FailedStartUpRollsBack(deps: Deps, order: seq<string>, base: set<string>, raising: set<string>, k: nat)
    requires StartOrder(deps, order) && FirstToRaise(order, raising, k) && k < |order|
    ensures RolledBack(deps, order, k, InitTrace(order, base, raising))
    ensures RolledBack(deps, order, k, StartTrace(order, raising))
  {
    FirstRaisingAt(order, raising, k);
    StopsRollBack(deps, order, k, Inits(order, base, k + 1));
    StopsRollBack(deps, order, k, Starts(order, k + 1));
  }

  lemma StopsRollBack(deps: Deps, order: seq<string>, k: nat, before: seq<Call>)
    requires StartOrder(deps, order) && k <= |order| && forall i :: 0 <= i < |before| ==> !before[i].Stop?
    ensures RolledBack(deps, order, k, before + Stops(order, k))
  {
    hide ServiceGraph.StartOrder, ServiceGraph.Distinct;
    var calls := before + Stops(order, k);
    StartOrderDistinct(deps, order);
    StopsEachOnce(order, k);
    assert forall i :: |before| <= i < |calls| ==> calls[i] == Stops(order, k)[i - |before|];
    forall n ensures Stop(n) in calls <==> Stop(n) in Stops(order, k) {
      if Stop(n) in Stops(order, k) {
        var i :| 0 <= i < k && Stops(order, k)[i] == Stop(n);
        assert calls[|before| + i] == Stop(n);
      }
    }
    DistinctStops(before, Stops(order, k));
    forall a, b | 0 <= a < |calls| && 0 <= b < |calls| && StopsDependent(deps, calls[b], calls[a])
      ensures a < b
    {
      DependentsStopFirst(deps, order, k, b - |before|, a - |before|);
    }
  }

  lemma StartOrderDistinct(deps: Deps, order: seq<string>)
    requires StartOrder(deps, order)
    ensures Distinct(order)
  {
  }

  lemma DistinctStops(before: seq<Call>, stops: seq<Call>)
    requires Distinct(stops) && forall i :: 0 <= i < |before| ==> !before[i].Stop?
    ensures var calls := before + stops;
            forall a, b :: 0 <= a < b < |calls| && calls[a].Stop? ==> calls[a] != calls[b]
  {
  }

  /** The warnings of a rollback or shutdown: one for each stopped service whose stop raises, in the order
      of the stops. */
  lemma {:induction false} WarningsMeans(order: seq<string>, k: nat, stopRaising: set<string>)
    requires k <= |order| && Distinct(order)
    ensures var ws := Warnings(order, k, stopRaising);
            && (forall n :: n in ws <==> n in order[..k] && n in stopRaising)
            && (forall a, b, i, j :: (0 <= a < b < |ws| && 0 <= i < k && 0 <= j < k
                                      && ws[a] == order[i] && ws[b] == order[j]) ==> j < i)
  {
    if k > 0 {
      WarningsMeans(order, k - 1, stopRaising);
      var rest := Warnings(order, k - 1, stopRaising);
      assert order[..k] == order[..k - 1] + [order[k - 1]];
      assert forall b :: 0 <= b < |rest| ==> rest[b] in order[..k - 1];
    }
  }

  /** Each initialisation finds every dependency in its context. */
  lemma InitializeSeesDependencies(deps: Deps, order: seq<string>, base: set<string>, k: nat, i: nat, d: string)
    requires StartOrder(deps, order) && i < k <= |order| && d in deps[order[i]]
    ensures Inits(order, base, k)[i].name == order[i] && d in Inits(order, base, k)[i].visible
  {
  }

  /** A rollback or shutdown stops each of the first k services exactly once, and nothing else. */
  lemma {:induction false} StopsEachOnce(order: seq<string>, k: nat)
    requires k <= |order| && Distinct(order)
    ensures forall n :: n in order[..k] <==> Stop(n) in Stops(order, k)
    ensures Distinct(Stops(order, k))
  {
    forall n | n in order[..k] ensures Stop(n) in Stops(order, k) {
      var i :| 0 <= i < k && order[i] == n;
      assert Stops(order, k)[k - 1 - i] == Stop(n);
    }
  }

  /** No service is stopped before a service that depends on it and is being stopped too. */
  lemma DependentsStopFirst(deps: Deps, order: seq<string>, k: nat, i: nat, j: nat)
    requires StartOrder(deps, order) && k <= |order| && i < k && j < k
    requires Stops(order, k)[j].name in deps
    requires Stops(order, k)[i].name in deps[Stops(order, k)[j].name]
    ensures j < i
  {
  }
}
