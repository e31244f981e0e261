/** Dependency graphs: chains, cycles, start orders and levels. A service may name a dependency twice. */
module ServiceGraph {
  type Deps = map<string, seq<string>>

  predicate Closed(deps: Deps) {
    forall v, d :: v in deps && d in deps[v] ==> d in deps
  }

  /** Each element is a dependency of the one after it. */
  predicate Chain(deps: Deps, p: seq<string>) {
    && p != []
    && (forall i :: 0 <= i < |p| ==> p[i] in deps)
    && (forall i :: 0 <= i < |p| - 1 ==> p[i] in deps[p[i + 1]])
  }

  function Last<T>(s: seq<T>): T
    requires s != []
  {
    s[|s| - 1]
  }

  ghost predicate HasCycle(deps: Deps) {
    exists p :: Chain(deps, p) && |p| >= 2 && p[0] == Last(p)
  }

  predicate Distinct<T(==)>(s: seq<T>) {
    forall i, j :: 0 <= i < j < |s| ==> s[i] != s[j]
  }

  function Elements<T>(s: seq<T>): set<T> {
    set x | x in s
  }

  /** Every service comes after all it depends on. */
  predicate DependenciesFirst(deps: Deps, order: seq<string>) {
    forall i, d :: 0 <= i < |order| && order[i] in deps && d in deps[order[i]] ==> d in order[..i]
  }

  ghost predicate StartOrder(deps: Deps, order: seq<string>) {
    Distinct(order) && Elements(order) == deps.Keys && DependenciesFirst(deps, order)
  }

  // ---- Counting ----

  lemma {:induction false} DistinctSize<T>(s: seq<T>)
    requires Distinct(s)
    ensures |Elements(s)| == |s|
  {
    if s != [] {
      DistinctSize(s[1..]);
      assert Elements(s) == Elements(s[1..]) + {s[0]};
      assert s[0] !in s[1..];
    }
  }

  lemma SubsetSize<T>(a: set<T>, b: set<T>)
    requires a <= b
    ensures |a| <= |b|
    ensures |a| == |b| ==> a == b
  {
    assert b == a + (b - a);
  }

  lemma {:induction false} Pigeonhole<T>(p: seq<T>, r: set<T>) returns (i: nat, j: nat)
    requires Elements(p) <= r && |p| > |r|
    ensures i < j < |p| && p[i] == p[j]
  {
    if Distinct(p) {
      DistinctSize(p);
      SubsetSize(Elements(p), r);
    }
    i, j :| 0 <= i < j < |p| && p[i] == p[j];
  }

  // ---- Cycles and orders exclude each other ----

  predicate Waits(deps: Deps, r: set<string>, v: string) {
    v in deps && exists d :: d in deps[v] && d in r
  }

  ghost predicate Stuck(deps: Deps, r: set<string>) {
    forall v {:trigger Waits(deps, r, v)} :: v in r ==> Waits(deps, r, v)
  }

  lemma {:induction false} StuckChain(deps: Deps, r: set<string>, n: nat) returns (p: seq<string>)
    requires r != {} && Stuck(deps, r) && n > 0
    ensures |p| == n && Chain(deps, p) && Elements(p) <= r
  {
    if n == 1 {
      var v :| v in r;
      assert Waits(deps, r, v);
      p := [v];
    } else {
      var tail := StuckChain(deps, r, n - 1);
      assert tail[0] in Elements(tail);
      assert Waits(deps, r, tail[0]);
      var d :| d in deps[tail[0]] && d in r;
      assert Waits(deps, r, d);
      p := [d] + tail;
    }
  }

  /** If everything that is left waits for something that is left, there is a cycle. */
  lemma StuckMeansCycle(deps: Deps, r: set<string>)
    requires r != {} && Stuck(deps, r)
    ensures HasCycle(deps)
  {
    var p := StuckChain(deps, r, |r| + 1);
    var i, j := Pigeonhole(p, r);
    var cycle := p[i..j + 1];
    assert Chain(deps, cycle) by {
      forall k | 0 <= k < |cycle| - 1 ensures cycle[k] in deps[cycle[k + 1]] {
        assert p[i + k] in deps[p[i + k + 1]];
      }
    }
    assert Last(cycle) == p[j];
  }

  lemma {:induction false} ChainGoesForward(deps: Deps, order: seq<string>, p: seq<string>, first: nat, last: nat)
    requires StartOrder(deps, order) && Chain(deps, p)
    requires first < |order| && last < |order| && order[first] == p[0] && order[last] == Last(p)
    ensures first + |p| - 1 <= last
  {
    if |p| > 1 {
      var q := p[..|p| - 1];
      assert Last(q) in deps[order[last]] && Last(q) == p[|p| - 2];
      assert Last(q) in order[..last];
      var k :| 0 <= k < last && order[k] == Last(q);
      assert Chain(deps, q) by {
        forall i | 0 <= i < |q| - 1 ensures q[i] in deps[q[i + 1]] {
          assert p[i] in deps[p[i + 1]];
        }
      }
      ChainGoesForward(deps, order, q, first, k);
    }
  }

  lemma OrderMeansNoCycle(deps: Deps, order: seq<string>)
    requires StartOrder(deps, order)
    ensures !HasCycle(deps)
  {
    if HasCycle(deps) {
      var p :| Chain(deps, p) && |p| >= 2 && p[0] == Last(p);
      assert p[0] in Elements(order);
      var k :| 0 <= k < |order| && order[k] == p[0];
      ChainGoesForward(deps, order, p, k, k);
    }
  }

  // ---- Levels: the length of the longest chain into a service ----

  ghost predicate LevelOk(deps: Deps, level: map<string, nat>, v: string)
    requires v in deps && v in level
  {
    && (forall d :: d in deps[v] ==> d in level && level[d] < level[v])
    && (level[v] > 0 ==> exists d :: d in deps[v] && d in level && level[d] == level[v] - 1)
  }

  ghost predicate LevelsOk(deps: Deps, level: map<string, nat>) {
    && level.Keys <= deps.Keys
    && forall v {:trigger LevelOk(deps, level, v)} :: v in level ==> LevelOk(deps, level, v)
  }

  lemma {:induction false} ChainWithinLevel(deps: Deps, level: map<string, nat>, p: seq<string>)
    requires LevelsOk(deps, level) && Chain(deps, p) && Last(p) in level
    ensures |p| <= level[Last(p)] + 1
  {
    if |p| > 1 {
      var q := p[..|p| - 1];
      assert Last(q) == p[|p| - 2] && Last(q) in deps[Last(p)];
      assert Chain(deps, q) by {
        forall i | 0 <= i < |q| - 1 ensures q[i] in deps[q[i + 1]] {
          assert p[i] in deps[p[i + 1]];
        }
      }
      assert LevelOk(deps, level, Last(p));
      ChainWithinLevel(deps, level, q);
    }
  }

  lemma {:induction false} LevelHasChain(deps: Deps, level: map<string, nat>, v: string) returns (p: seq<string>)
    requires LevelsOk(deps, level) && v in level
    ensures Chain(deps, p) && Last(p) == v && |p| == level[v] + 1
    decreases level[v]
  {
    if level[v] == 0 {
      p := [v];
    } else {
      assert LevelOk(deps, level, v);
      var d :| d in deps[v] && d in level && level[d] == level[v] - 1;
      var q := LevelHasChain(deps, level, d);
      p := q + [v];
    }
  }

  /** No chain into an earlier service is longer than every chain into a later one. */
  ghost predicate Layered(deps: Deps, order: seq<string>) {
    forall i, j, p :: 0 <= i < j < |order| && Chain(deps, p) && Last(p) == order[i] ==>
      exists q :: Chain(deps, q) && Last(q) == order[j] && |q| >= |p|
  }

  lemma LevelsGiveLayers(deps: Deps, order: seq<string>, level: map<string, nat>)
    requires LevelsOk(deps, level) && Elements(order) <= level.Keys
    requires forall i, j :: 0 <= i < j < |order| && order[i] in level && order[j] in level ==>
                              level[order[i]] <= level[order[j]]
    ensures Layered(deps, order)
  {
    forall i, j, p | 0 <= i < j < |order| && Chain(deps, p) && Last(p) == order[i]
      ensures exists q :: Chain(deps, q) && Last(q) == order[j] && |q| >= |p|
    {
      assert order[i] in Elements(order) && order[j] in Elements(order);
      ChainWithinLevel(deps, level, p);
      var q := LevelHasChain(deps, level, order[j]);
    }
  }
}
