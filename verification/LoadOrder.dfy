/** Layered load order of the shared libraries (bindings/python/ns__init__.py, sort_to_dependencies). */
module LoadOrder {
  import opened Wrappers
  import opened Sequences

  type Lib = string
  type Dependencies = map<Lib, seq<Lib>>

  // ---------------------------------------------------------------------------
  // Reference definitions: dependency chains
  // ---------------------------------------------------------------------------

  /** A chain starts at c[0]; each further library is a dependency of the one before it. */
  predicate IsChain(deps: Dependencies, c: seq<Lib>) {
    |c| >= 1 && forall i :: 0 <= i < |c| - 1 ==> c[i] in deps && c[i + 1] in deps[c[i]]
  }

  predicate IsChainFrom(deps: Dependencies, m: Lib, c: seq<Lib>) {
    IsChain(deps, c) && c[0] == m
  }

  ghost predicate Acyclic(deps: Dependencies) {
    forall c :: IsChain(deps, c) && |c| >= 2 ==> c[0] != c[|c| - 1]
  }

  /** Every dependency of a known library is itself a known library. */
  predicate Closed(deps: Dependencies) {
    forall m, i :: m in deps && 0 <= i < |deps[m]| ==> deps[m][i] in deps
  }

  /** All chains from m stay among the known libraries and have at most n members. */
  ghost predicate ChainsWithin(deps: Dependencies, m: Lib, n: nat) {
    forall c :: IsChainFrom(deps, m, c) ==> |c| <= n && forall i :: 0 <= i < |c| ==> c[i] in deps
  }

  /** n is the length of the longest chain from m. */
  ghost predicate LongestChain(deps: Dependencies, m: Lib, n: nat) {
    ChainsWithin(deps, m, n) && exists c :: IsChainFrom(deps, m, c) && |c| == n
  }

  // ---------------------------------------------------------------------------
  // What the rounds compute
  // ---------------------------------------------------------------------------

  predicate CanLoad(deps: Dependencies, m: Lib, loaded: seq<Lib>)
    requires m in deps
  {
    forall i :: 0 <= i < |deps[m]| ==> deps[m][i] in loaded
  }

  predicate Known(deps: Dependencies, ms: seq<Lib>) {
    forall i :: 0 <= i < |ms| ==> ms[i] in deps
  }

  /** The libraries of `pending` that can be loaded, in their order. */
  function Ready(deps: Dependencies, pending: seq<Lib>, loaded: seq<Lib>): seq<Lib>
    requires Known(deps, pending)
  {
    if pending == [] then []
    else
      var n := |pending| - 1;
      Ready(deps, pending[..n], loaded) + if CanLoad(deps, pending[n], loaded) then [pending[n]] else []
  }

  lemma {:induction false} ReadyMembers(deps: Dependencies, pending: seq<Lib>, loaded: seq<Lib>, m: Lib)
    requires Known(deps, pending)
    ensures m in Ready(deps, pending, loaded) <==> m in pending && CanLoad(deps, m, loaded)
  {
    if pending != [] {
      var n := |pending| - 1;
      ReadyMembers(deps, pending[..n], loaded, m);
      assert pending == pending[..n] + [pending[n]];
    }
  }

  /** p are the positions of the libraries of `pending` that can be loaded, in order. */
  ghost predicate ListsReady(deps: Dependencies, pending: seq<Lib>, loaded: seq<Lib>, ready: seq<Lib>, p: seq<nat>)
    requires Known(deps, pending)
  {
    |p| == |ready| && Increasing(p) &&
    (forall i :: 0 <= i < |p| ==> p[i] < |pending| && pending[p[i]] == ready[i]) &&
    (forall k :: 0 <= k < |pending| ==> (k in p <==> CanLoad(deps, pending[k], loaded)))
  }

  lemma {:induction false} ReadyPositions(deps: Dependencies, pending: seq<Lib>, loaded: seq<Lib>)
    returns (p: seq<nat>)
    requires Known(deps, pending)
    ensures ListsReady(deps, pending, loaded, Ready(deps, pending, loaded), p)
  {
    if pending == [] {
      p := [];
    } else {
      var n := |pending| - 1;
      p := ReadyPositions(deps, pending[..n], loaded);
      var before := p;
      if CanLoad(deps, pending[n], loaded) {
        IncreasingSnoc(p, n);
        p := p + [n];
      }
      forall k | 0 <= k < |pending| ensures k in p <==> CanLoad(deps, pending[k], loaded) {
        if k < n { assert pending[..n][k] == pending[k] && (k in p <==> k in before); }
      }
    }
  }

  /** The first position of a library, or the length. */
  function Position(keys: seq<Lib>, m: Lib): (k: nat)
    ensures k <= |keys| && (k < |keys| ==> keys[k] == m)
    ensures m in keys ==> k < |keys|
  {
    if keys == [] || keys[0] == m then 0 else 1 + Position(keys[1..], m)
  }

  /** The libraries are in the order of the keys. */
  predicate InKeyOrder(keys: seq<Lib>, ms: seq<Lib>) {
    forall i, j :: 0 <= i < j < |ms| ==> Position(keys, ms[i]) < Position(keys, ms[j])
  }

  lemma KeysInKeyOrder(keys: seq<Lib>)
    requires Distinct(keys)
    ensures InKeyOrder(keys, keys)
  {
    forall i | 0 <= i < |keys| ensures Position(keys, keys[i]) == i {
      assert keys[i] in keys;
      assert keys[Position(keys, keys[i])] == keys[i];
    }
  }

  lemma ReadyInKeyOrder(deps: Dependencies, keys: seq<Lib>, pending: seq<Lib>, loaded: seq<Lib>)
    requires Known(deps, pending) && InKeyOrder(keys, pending)
    ensures InKeyOrder(keys, Ready(deps, pending, loaded))
  {
    var p := ReadyPositions(deps, pending, loaded);
  }

  predicate Distinct(s: seq<Lib>) {
    forall i, j :: 0 <= i < j < |s| ==> s[i] != s[j]
  }

  /** The set of libraries that are loaded after n rounds. */
  ghost function LoadedBy(deps: Dependencies, n: nat): set<Lib> {
    if n == 0 then {} else set m | m in deps && forall i :: 0 <= i < |deps[m]| ==> deps[m][i] in LoadedBy(deps, n - 1)
  }

  lemma ChainTail(deps: Dependencies, m: Lib, c: seq<Lib>)
    requires IsChainFrom(deps, m, c) && |c| >= 2
    ensures m in deps && c[1] in deps[m] && IsChainFrom(deps, c[1], c[1..])
  {
    forall i | 0 <= i < |c[1..]| - 1 ensures c[1..][i] in deps && c[1..][i + 1] in deps[c[1..][i]] {
      assert c[i + 1] in deps && c[i + 2] in deps[c[i + 1]];
    }
  }

  lemma ChainCons(deps: Dependencies, m: Lib, d: Lib, c: seq<Lib>)
    requires m in deps && d in deps[m] && IsChainFrom(deps, d, c)
    ensures IsChainFrom(deps, m, [m] + c)
  {
    var e := [m] + c;
    forall i | 0 <= i < |e| - 1 ensures e[i] in deps && e[i + 1] in deps[e[i]] {
      if i > 0 { assert c[i - 1] in deps && c[i] in deps[c[i - 1]]; }
    }
  }

  /** MAIN: a library is loaded within n rounds exactly when all its dependency chains are known
      and have at most n members. */
  lemma {:induction false} LoadedByChains(deps: Dependencies, m: Lib, n: nat)
    ensures m in LoadedBy(deps, n) <==> ChainsWithin(deps, m, n)
    decreases n
  {
    assert IsChainFrom(deps, m, [m]);
    if n > 0 {
      if m in LoadedBy(deps, n) {
        forall c | IsChainFrom(deps, m, c) ensures |c| <= n && forall i :: 0 <= i < |c| ==> c[i] in deps {
          if |c| >= 2 {
            ChainTail(deps, m, c);
            LoadedByChains(deps, c[1], n - 1);
            forall i | 0 <= i < |c| ensures c[i] in deps { if i > 0 { assert c[1..][i - 1] in deps; } }
          }
        }
      }
      if ChainsWithin(deps, m, n) {
        assert [m][0] in deps;
        forall i | 0 <= i < |deps[m]| ensures deps[m][i] in LoadedBy(deps, n - 1) {
          DependencyChainsWithin(deps, m, deps[m][i], n);
          LoadedByChains(deps, deps[m][i], n - 1);
        }
      }
    }
  }

  lemma DependencyChainsWithin(deps: Dependencies, m: Lib, d: Lib, n: nat)
    requires m in deps && d in deps[m] && n > 0 && ChainsWithin(deps, m, n)
    ensures ChainsWithin(deps, d, n - 1)
  {
    forall c | IsChainFrom(deps, d, c) ensures |c| <= n - 1 && forall i :: 0 <= i < |c| ==> c[i] in deps {
      ChainCons(deps, m, d, c);
      forall i | 0 <= i < |c| ensures c[i] in deps { assert ([m] + c)[i + 1] in deps; }
    }
  }

  // ---------------------------------------------------------------------------
  // When the rounds come to an end
  // ---------------------------------------------------------------------------

  lemma {:induction false} LoadedByMonotone(deps: Dependencies, k: nat, n: nat)
    requires k <= n
    ensures LoadedBy(deps, k) <= LoadedBy(deps, n) <= deps.Keys
    decreases n
  {
    if k < n {
      LoadedByMonotone(deps, k, n - 1);
    }
    if n > 0 {
      LoadedByGrows(deps, n - 1);
    }
  }

  lemma {:induction false} LoadedByGrows(deps: Dependencies, n: nat)
    ensures LoadedBy(deps, n) <= LoadedBy(deps, n + 1)
  {
    if n > 0 {
      LoadedByGrows(deps, n - 1);
      forall m | m in LoadedBy(deps, n) ensures m in LoadedBy(deps, n + 1) {
        forall i | 0 <= i < |deps[m]| ensures deps[m][i] in LoadedBy(deps, n) {
          assert deps[m][i] in LoadedBy(deps, n - 1);
        }
      }
    }
  }

  /** An empty round is followed by empty rounds only. */
  lemma {:induction false} LoadedByStalls(deps: Dependencies, k: nat, n: nat)
    requires LoadedBy(deps, k + 1) == LoadedBy(deps, k) && k <= n
    ensures LoadedBy(deps, n) == LoadedBy(deps, k)
    decreases n
  {
    if k < n {
      LoadedByStalls(deps, k, n - 1);
      assert LoadedBy(deps, n) == LoadedBy(deps, k + 1);
    }
  }

  /** MAIN: the round in which a library is loaded is the length of its longest chain. */
  lemma LayerIsLongestChain(deps: Dependencies, m: Lib, n: nat)
    ensures m in LoadedBy(deps, n + 1) && m !in LoadedBy(deps, n) <==> LongestChain(deps, m, n + 1)
  {
    LoadedByChains(deps, m, n);
    LoadedByChains(deps, m, n + 1);
    if ChainsWithin(deps, m, n + 1) && !ChainsWithin(deps, m, n) {
      var c :| IsChainFrom(deps, m, c) && !(|c| <= n && forall i :: 0 <= i < |c| ==> c[i] in deps);
      assert |c| == n + 1;
    }
  }

  lemma {:induction false} DistinctLength(c: seq<Lib>, s: set<Lib>)
    requires Distinct(c) && forall i :: 0 <= i < |c| ==> c[i] in s
    ensures |c| <= |s|
  {
    if c != [] {
      var n := |c| - 1;
      DistinctLength(c[..n], s - {c[n]});
    }
  }

  lemma SubChain(deps: Dependencies, c: seq<Lib>, i: nat, j: nat)
    requires IsChain(deps, c) && i < j < |c|
    ensures IsChain(deps, c[i..j + 1])
  {
    var e := c[i..j + 1];
    forall k | 0 <= k < |e| - 1 ensures e[k] in deps && e[k + 1] in deps[e[k]] {
      assert c[i + k] in deps && c[i + k + 1] in deps[c[i + k]];
    }
  }

  lemma {:induction false} ClosedChain(deps: Dependencies, c: seq<Lib>, i: nat)
    requires Closed(deps) && IsChain(deps, c) && c[0] in deps && i < |c|
    ensures c[i] in deps
  {
    if i > 0 {
      assert c[i - 1] in deps && c[i] in deps[c[i - 1]];
    }
  }

  lemma AcyclicRepeatsNot(deps: Dependencies, c: seq<Lib>, i: nat, j: nat)
    requires Acyclic(deps) && IsChain(deps, c) && i < j < |c|
    ensures c[i] != c[j]
  {
    SubChain(deps, c, i, j);
    var e := c[i..j + 1];
    assert e[0] == c[i] && e[|e| - 1] == c[j];
  }

  lemma AcyclicChainsShort(deps: Dependencies, m: Lib)
    requires Acyclic(deps) && Closed(deps) && m in deps
    ensures ChainsWithin(deps, m, |deps.Keys|)
  {
    forall c | IsChainFrom(deps, m, c)
      ensures |c| <= |deps.Keys| && forall i :: 0 <= i < |c| ==> c[i] in deps
    {
      forall i | 0 <= i < |c| ensures c[i] in deps { ClosedChain(deps, c, i); }
      forall i, j | 0 <= i < j < |c| ensures c[i] != c[j] { AcyclicRepeatsNot(deps, c, i, j); }
      DistinctLength(c, deps.Keys);
    }
  }

  /** Following a chain uses up its bound. */
  lemma {:induction false} ChainBound(deps: Dependencies, c: seq<Lib>, i: nat, n: nat)
    requires IsChain(deps, c) && i < |c| && ChainsWithin(deps, c[0], n)
    ensures i < n && ChainsWithin(deps, c[i], n - i)
  {
    if i > 0 {
      ChainBound(deps, c, i - 1, n);
      assert c[i - 1] in deps && c[i] in deps[c[i - 1]];
      DependencyChainsWithin(deps, c[i - 1], c[i], n - (i - 1));
      assert IsChainFrom(deps, c[i], [c[i]]);
    } else {
      assert IsChainFrom(deps, c[0], [c[0]]);
    }
  }

  /** A cycle has chains of every length. */
  lemma {:induction false} CycleUnbounded(deps: Dependencies, c: seq<Lib>, n: nat)
    requires IsChain(deps, c) && |c| >= 2 && c[0] == c[|c| - 1]
    ensures !ChainsWithin(deps, c[0], n)
    decreases n
  {
    if ChainsWithin(deps, c[0], n) {
      ChainBound(deps, c, |c| - 1, n);
      CycleUnbounded(deps, c, n - (|c| - 1));
    }
  }

  /** All libraries are loaded within n rounds. */
  ghost predicate AllLoadedBy(deps: Dependencies, n: nat) {
    deps.Keys <= LoadedBy(deps, n)
  }

  /** MAIN: with at least as many rounds as libraries, everything is loaded exactly when the
      dependency map is acyclic and closed; no larger number of rounds helps otherwise. */
  lemma AllLoadedIffAcyclicClosed(deps: Dependencies, n: nat)
    ensures AllLoadedBy(deps, n) ==> Acyclic(deps) && Closed(deps)
    ensures n >= |deps.Keys| && Acyclic(deps) && Closed(deps) ==> AllLoadedBy(deps, n)
  {
    if AllLoadedBy(deps, n) {
      forall c | IsChain(deps, c) && |c| >= 2 ensures c[0] != c[|c| - 1] {
        assert c[0] in deps;
        LoadedByChains(deps, c[0], n);
        if c[0] == c[|c| - 1] { CycleUnbounded(deps, c, n); }
      }
      forall m, i | m in deps && 0 <= i < |deps[m]| ensures deps[m][i] in deps {
        LoadedByChains(deps, m, n);
        var c := [m, deps[m][i]];
        assert IsChainFrom(deps, m, c);
        assert c[1] in deps;
      }
    }
    if n >= |deps.Keys| && Acyclic(deps) && Closed(deps) {
      forall m | m in deps ensures m in LoadedBy(deps, n) {
        AcyclicChainsShort(deps, m);
        LoadedByChains(deps, m, |deps.Keys|);
        LoadedByMonotone(deps, |deps.Keys|, n);
      }
    }
  }

  // ---------------------------------------------------------------------------
  // The sorter: lists that are mutated in place
  // ---------------------------------------------------------------------------

  function RemoveFirst(s: seq<Lib>, x: Lib): (r: seq<Lib>)
    requires x in s
    ensures multiset(r) == multiset(s) - multiset{x}
  {
    var k := Position(s, x);
    assert s == s[..k] + [x] + s[k + 1..];
    s[..k] + s[k + 1..]
  }

  lemma RemoveKeepsKeyOrder(keys: seq<Lib>, s: seq<Lib>, x: Lib)
    requires x in s && InKeyOrder(keys, s)
    ensures InKeyOrder(keys, RemoveFirst(s, x))
  {
    var k, r := Position(s, x), RemoveFirst(s, x);
    forall i, j | 0 <= i < j < |r| ensures Position(keys, r[i]) < Position(keys, r[j]) {
      assert r[i] == s[if i < k then i else i + 1] && r[j] == s[if j < k then j else j + 1];
    }
  }

  function Flatten(steps: seq<seq<Lib>>): seq<Lib> {
    if steps == [] then [] else Flatten(steps[..|steps| - 1]) + steps[|steps| - 1]
  }

  lemma {:induction false} NonEmptySteps(steps: seq<seq<Lib>>)
    requires forall s :: 0 <= s < |steps| ==> steps[s] != []
    ensures |steps| <= |Flatten(steps)|
  {
    if steps != [] { NonEmptySteps(steps[..|steps| - 1]); }
  }

  /** Every dependency comes before its dependents. */
  predicate LoadsInOrder(deps: Dependencies, order: seq<Lib>) {
    forall i :: 0 <= i < |order| ==> order[i] in deps && CanLoad(deps, order[i], order[..i])
  }

  lemma {:induction false} DistinctCounts(s: seq<Lib>, x: Lib)
    requires Distinct(s)
    ensures multiset(s)[x] <= 1
  {
    if s != [] {
      var n := |s| - 1;
      assert s == s[..n] + [s[n]];
      DistinctCounts(s[..n], x);
      assert s[n] !in s[..n];
    }
  }

  lemma {:induction false} ReadyIsPart(deps: Dependencies, pending: seq<Lib>, loaded: seq<Lib>)
    requires Known(deps, pending)
    ensures multiset(Ready(deps, pending, loaded)) <= multiset(pending)
  {
    if pending != [] {
      var n := |pending| - 1;
      ReadyIsPart(deps, pending[..n], loaded);
      assert pending == pending[..n] + [pending[n]];
      assert multiset(pending) == multiset(pending[..n]) + multiset{pending[n]};
    }
  }

  /** The libraries that are loaded in round s (counted from 0) and in no earlier one. */
  ghost predicate IsLayer(deps: Dependencies, ms: seq<Lib>, s: nat) {
    forall m :: m in ms <==> m in LoadedBy(deps, s + 1) - LoadedBy(deps, s)
  }

  /** A round loads exactly the libraries whose longest chain has one member more than before. */
  lemma RoundIsLayer(deps: Dependencies, keys: seq<Lib>, pending: seq<Lib>, current: seq<Lib>, done: nat)
    requires Distinct(keys) && (forall m :: m in deps <==> m in keys) && Known(deps, pending)
    requires multiset(pending) + multiset(current) == multiset(keys)
    requires LoadedExactly(deps, current, done)
    ensures IsLayer(deps, Ready(deps, pending, current), done)
  {
    LoadedByGrows(deps, done);
    forall m
      ensures m in Ready(deps, pending, current) <==> m in LoadedBy(deps, done + 1) - LoadedBy(deps, done)
    {
      ReadyMembers(deps, pending, current, m);
      DistinctCounts(keys, m);
      assert m in multiset(pending) <==> m in pending;
      assert m in multiset(current) <==> m in current;
      assert m in multiset(keys) <==> m in keys;
      if m in deps {
        assert CanLoad(deps, m, current) <==> m in LoadedBy(deps, done + 1);
      }
    }
  }

  /** The state once `done` rounds are finished: pending and current divide the keys, current is in
      load order and lists the steps, and step s holds what is new in round s. */
  ghost predicate IsAfter(deps: Dependencies, keys: seq<Lib>, pending: seq<Lib>, current: seq<Lib>,
                          steps: seq<seq<Lib>>, done: nat)
  {
    Distinct(keys) && (forall m :: m in deps <==> m in keys) &&
    multiset(pending) + multiset(current) == multiset(keys) &&
    LoadsInOrder(deps, current) && current == Flatten(steps) && |steps| == done &&
    LoadedExactly(deps, current, done) && AllLayers(deps, steps) &&
    InKeyOrder(keys, pending) && AllInKeyOrder(keys, steps)
  }

  ghost predicate AllInKeyOrder(keys: seq<Lib>, steps: seq<seq<Lib>>) {
    forall s :: 0 <= s < |steps| ==> InKeyOrder(keys, steps[s])
  }

  ghost predicate LoadedExactly(deps: Dependencies, current: seq<Lib>, n: nat) {
    forall m :: m in current <==> m in LoadedBy(deps, n)
  }

  ghost predicate AllLayers(deps: Dependencies, steps: seq<seq<Lib>>) {
    forall s :: 0 <= s < |steps| ==> IsLayer(deps, steps[s], s)
  }

  lemma PendingKnown(deps: Dependencies, keys: seq<Lib>, pending: seq<Lib>, current: seq<Lib>)
    requires forall m :: m in deps <==> m in keys
    requires multiset(pending) + multiset(current) == multiset(keys)
    ensures Known(deps, pending)
  {
    forall i | 0 <= i < |pending| ensures pending[i] in deps {
      assert pending[i] in multiset(pending) + multiset(current);
      assert pending[i] in multiset(keys);
    }
  }

  lemma RoundAdvances(deps: Dependencies, keys: seq<Lib>, pending: seq<Lib>, current: seq<Lib>,
                      steps: seq<seq<Lib>>, done: nat, left: seq<Lib>)
    requires IsAfter(deps, keys, pending, current, steps, done) && Known(deps, pending)
    requires multiset(left) == multiset(pending) - multiset(Ready(deps, pending, current)) && InKeyOrder(keys, left)
    requires LoadsInOrder(deps, current + Ready(deps, pending, current))
    ensures var modules := Ready(deps, pending, current);
            IsAfter(deps, keys, left, current + modules, steps + [modules], done + 1)
  {
    var modules := Ready(deps, pending, current);
    RoundIsLayer(deps, keys, pending, current, done);
    CurrentAfterRound(deps, current, modules, done);
    LayersSnoc(deps, steps, modules);
    FlattenSnoc(steps, modules);
    ReadyInKeyOrder(deps, keys, pending, current);
    ReadyIsPart(deps, pending, current);
    MovedParts(pending, current, modules, left);
  }

  lemma MovedParts(pending: seq<Lib>, current: seq<Lib>, modules: seq<Lib>, left: seq<Lib>)
    requires multiset(modules) <= multiset(pending)
    requires multiset(left) == multiset(pending) - multiset(modules)
    ensures multiset(left) + multiset(current + modules) == multiset(pending) + multiset(current)
  {
    assert multiset(left) + multiset(modules) == multiset(pending);
  }

  lemma LayersSnoc(deps: Dependencies, steps: seq<seq<Lib>>, step: seq<Lib>)
    requires AllLayers(deps, steps) && IsLayer(deps, step, |steps|)
    ensures AllLayers(deps, steps + [step])
  {
  }

  lemma FlattenSnoc(steps: seq<seq<Lib>>, step: seq<Lib>)
    ensures Flatten(steps + [step]) == Flatten(steps) + step
  {
    assert (steps + [step])[..|steps|] == steps;
  }

  lemma CurrentAfterRound(deps: Dependencies, current: seq<Lib>, modules: seq<Lib>, done: nat)
    requires IsLayer(deps, modules, done) && LoadedExactly(deps, current, done)
    ensures LoadedExactly(deps, current + modules, done + 1)
  {
    LoadedByGrows(deps, done);
    forall m ensures m in current + modules <==> m in LoadedBy(deps, done + 1) {
      assert m in modules <==> m in LoadedBy(deps, done + 1) - LoadedBy(deps, done);
    }
  }

  class Sorter {
    const deps: Dependencies
    const keys: seq<Lib>
    var pending: seq<Lib>
    var current: seq<Lib>
    var steps: seq<seq<Lib>>

    ghost predicate After(done: nat)
      reads this
    {
      IsAfter(deps, keys, pending, current, steps, done)
    }

    constructor (deps: Dependencies, keys: seq<Lib>)
      requires Distinct(keys) && forall m :: m in deps <==> m in keys
      ensures this.deps == deps && this.keys == keys && pending == keys && current == [] && steps == []
      ensures After(0)
    {
      this.deps, this.keys := deps, keys;
      pending, current, steps := keys, [], [];
      new;
      KeysInKeyOrder(keys);
    }

    method ModulesThatCanBeLoaded() returns (modules: seq<Lib>)
      requires Known(deps, pending)
      ensures modules == Ready(deps, pending, current)
      ensures exists p :: ListsReady(deps, pending, current, modules, p)
    {
      ghost var p := ReadyPositions(deps, pending, current);
      modules := [];
      for i := 0 to |pending|
        invariant modules == Ready(deps, pending[..i], current)
      {
        var canBeLoaded := true;
        var dependencies := deps[pending[i]];
        for j := 0 to |dependencies|
          invariant canBeLoaded && forall k :: 0 <= k < j ==> dependencies[k] in current
        {
          if dependencies[j] !in current {
            canBeLoaded := false;
            break;
          }
        }
        assert pending[..i + 1][..i] == pending[..i];
        if !canBeLoaded { continue; }
        modules := modules + [pending[i]];
      }
      assert pending[..|pending|] == pending;
    }

    /** Move the given libraries, in order, from pending to current and to the last step. */
    method MoveAll(modules: seq<Lib>, last: nat)
      requires |steps| == last + 1 && steps[last] == []
      requires multiset(modules) <= multiset(pending) && LoadsInOrder(deps, current)
      requires forall i :: 0 <= i < |modules| ==> modules[i] in deps && CanLoad(deps, modules[i], current)
      modifies `pending, `current, `steps
      ensures steps == old(steps)[..last] + [modules]
      ensures current == old(current) + modules && LoadsInOrder(deps, current)
      ensures IsWithout(pending, old(pending), modules)
      ensures InKeyOrder(keys, old(pending)) ==> InKeyOrder(keys, pending)
    {
      ghost var all := pending;
      for j := 0 to |modules|
        invariant |steps| == last + 1 && steps[..last] == old(steps)[..last] && steps[last] == modules[..j]
        invariant current == old(current) + modules[..j] && LoadsInOrder(deps, current)
        invariant IsWithout(pending, all, modules[..j])
        invariant InKeyOrder(keys, all) ==> InKeyOrder(keys, pending)
      {
        MoveNext(modules, j, last, all, old(current));
      }
      assert modules[..|modules|] == modules;
    }

    /** One turn of that loop. */
    method MoveNext(modules: seq<Lib>, j: nat, last: nat, ghost all: seq<Lib>, ghost loaded: seq<Lib>)
      requires j < |modules| && |steps| == last + 1 && steps[last] == modules[..j]
      requires multiset(modules) <= multiset(all) && IsWithout(pending, all, modules[..j])
      requires current == loaded + modules[..j] && LoadsInOrder(deps, current)
      requires modules[j] in deps && CanLoad(deps, modules[j], loaded)
      modifies `pending, `current, `steps
      ensures steps == old(steps)[last := modules[..j + 1]]
      ensures current == loaded + modules[..j + 1] && LoadsInOrder(deps, current)
      ensures IsWithout(pending, all, modules[..j + 1])
      ensures InKeyOrder(keys, old(pending)) ==> InKeyOrder(keys, pending)
    {
      NextIsPending(modules, j, all, pending);
      InOrderSnoc(deps, loaded, modules[..j], modules[j]);
      Move(modules[j], last);
      NextIsMoved(modules, j, all, old(pending), pending);
      assert loaded + modules[..j + 1] == (loaded + modules[..j]) + [modules[j]];
    }

    method Move(mod: Lib, last: nat)
      requires |steps| == last + 1 && mod in pending
      modifies `pending, `current, `steps
      ensures steps == old(steps)[last := old(steps)[last] + [mod]]
      ensures multiset(pending) == multiset(old(pending)) - multiset{mod}
      ensures current == old(current) + [mod]
      ensures InKeyOrder(keys, old(pending)) ==> InKeyOrder(keys, pending)
    {
      if InKeyOrder(keys, pending) { RemoveKeepsKeyOrder(keys, pending, mod); }
      steps := steps[last := steps[last] + [mod]];
      pending := RemoveFirst(pending, mod);
      current := current + [mod];
    }

    /** One round: every library that can be loaded now is moved. */
    method LoadRound(stepNumber: nat)
      requires After(stepNumber)
      modifies `pending, `current, `steps
      ensures After(stepNumber + 1)
    {
      PendingKnown(deps, keys, pending, current);
      steps := steps + [[]];
      var modules := ModulesThatCanBeLoaded();
      ReadyIsPart(deps, pending, current);
      forall i | 0 <= i < |modules| ensures modules[i] in deps && CanLoad(deps, modules[i], current) {
        ReadyMembers(deps, pending, current, modules[i]);
      }
      MoveAll(modules, stepNumber);
      assert steps == old(steps) + [modules];
      RoundAdvances(deps, keys, old(pending), old(current), old(steps), stepNumber, pending);
    }

    lemma PendingIffNotLoaded(done: nat)
      requires After(done)
      ensures pending == [] <==> AllLoadedBy(deps, done)
      ensures |steps| == done
    {
      PendingKnown(deps, keys, pending, current);
      PendingEmptyIff(deps, keys, pending, current, steps, done);
    }

    lemma FinishedSteps()
      requires After(|steps|) && pending == [] && (|steps| > 0 ==> !AllLoadedBy(deps, |steps| - 1))
      ensures GoodOrder(deps, keys, current, steps)
    {
      FinishedIsGood(deps, keys, current, steps);
    }

    /** Rounds until nothing is pending. Each call needs one of the interpreter's remaining stack
        frames; without one the call raises a RecursionError (ok is false). */
    method DependencyOrder(stepNumber: nat, frames: nat) returns (ok: bool)
      requires After(stepNumber)
      modifies `pending, `current, `steps
      ensures ok <==> frames > 0 && AllLoadedBy(deps, stepNumber + frames - 1)
      ensures ok ==> pending == [] && stepNumber <= |steps| < stepNumber + frames && After(|steps|)
      ensures ok && stepNumber < |steps| ==> !AllLoadedBy(deps, |steps| - 1)
      decreases frames
    {
      if frames == 0 { return false; }
      PendingIffNotLoaded(stepNumber);
      if |pending| == 0 {
        StaysLoaded(deps, stepNumber, stepNumber + frames - 1);
        return true;
      }
      LoadRound(stepNumber);
      ok := DependencyOrder(stepNumber + 1, frames - 1);
    }

    /** The first call, on the sorter's initial lists. */
    method Run(frames: nat) returns (ok: bool)
      requires After(0)
      modifies `pending, `current, `steps
      ensures ok <==> frames > 0 && AllLoadedBy(deps, frames - 1)
      ensures ok ==> GoodOrder(deps, keys, current, steps) && |steps| < frames
    {
      ok := DependencyOrder(0, frames);
      if ok { FinishedSteps(); }
    }
  }

  lemma StaysLoaded(deps: Dependencies, n: nat, m: nat)
    requires n <= m && AllLoadedBy(deps, n)
    ensures AllLoadedBy(deps, m)
  {
    LoadedByMonotone(deps, n, m);
  }

  /** Nothing is pending exactly when everything is loaded. */
  lemma PendingEmptyIff(deps: Dependencies, keys: seq<Lib>, pending: seq<Lib>, current: seq<Lib>,
                        steps: seq<seq<Lib>>, done: nat)
    requires IsAfter(deps, keys, pending, current, steps, done) && Known(deps, pending)
    ensures pending == [] <==> AllLoadedBy(deps, done)
  {
    forall m ensures m in keys <==> m in pending || m in current {
      assert m in multiset(keys) <==> m in multiset(pending) + multiset(current);
    }
    if pending != [] {
      DistinctCounts(keys, pending[0]);
      assert pending[0] in multiset(pending);
      assert pending[0] !in multiset(current);
    }
  }

  predicate IsWithout(rest: seq<Lib>, all: seq<Lib>, gone: seq<Lib>) {
    multiset(rest) == multiset(all) - multiset(gone)
  }

  lemma NextIsPending(modules: seq<Lib>, j: nat, all: seq<Lib>, pending: seq<Lib>)
    requires j < |modules| && multiset(modules) <= multiset(all) && IsWithout(pending, all, modules[..j])
    ensures modules[..j + 1] == modules[..j] + [modules[j]]
    ensures modules[j] in pending
  {
    assert modules == modules[..j] + [modules[j]] + modules[j + 1..];
    assert modules[j] in multiset(pending);
  }

  lemma NextIsMoved(modules: seq<Lib>, j: nat, all: seq<Lib>, before: seq<Lib>, after: seq<Lib>)
    requires j < |modules| && IsWithout(before, all, modules[..j])
    requires multiset(after) == multiset(before) - multiset{modules[j]}
    ensures IsWithout(after, all, modules[..j + 1])
  {
    assert modules[..j + 1] == modules[..j] + [modules[j]];
    assert multiset(modules[..j + 1]) == multiset(modules[..j]) + multiset{modules[j]};
  }

  lemma InOrderSnoc(deps: Dependencies, loaded: seq<Lib>, more: seq<Lib>, m: Lib)
    requires m in deps && CanLoad(deps, m, loaded) && LoadsInOrder(deps, loaded + more)
    ensures LoadsInOrder(deps, loaded + more + [m])
  {
    var order := loaded + more + [m];
    forall i | 0 <= i < |order| ensures order[i] in deps && CanLoad(deps, order[i], order[..i]) {
      if i < |order| - 1 {
        assert order[..i] == (loaded + more)[..i];
      } else {
        assert order[..i] == loaded + more;
      }
    }
  }

  /** Step s of a finished order holds the libraries whose longest chain has s + 1 members, and no
      step is empty. */
  ghost predicate LayeredByChains(deps: Dependencies, steps: seq<seq<Lib>>) {
    forall s :: 0 <= s < |steps| ==>
      steps[s] != [] && forall m :: m in steps[s] <==> LongestChain(deps, m, s + 1)
  }

  lemma EmptyLayer(deps: Dependencies, none: seq<Lib>, s: nat, n: nat)
    requires none == [] && IsLayer(deps, none, s) && s < n && AllLoadedBy(deps, n)
    ensures AllLoadedBy(deps, n - 1)
  {
    LoadedByGrows(deps, s);
    assert LoadedBy(deps, s + 1) == LoadedBy(deps, s) by {
      forall m | m in LoadedBy(deps, s + 1) ensures m in LoadedBy(deps, s) {
        assert m in none <==> m in LoadedBy(deps, s + 1) - LoadedBy(deps, s);
      }
    }
    LoadedByStalls(deps, s, n - 1);
    LoadedByStalls(deps, s, n);
  }

  lemma FinishedIsLayered(deps: Dependencies, keys: seq<Lib>, current: seq<Lib>, steps: seq<seq<Lib>>, done: nat)
    requires IsAfter(deps, keys, [], current, steps, done)
    requires done > 0 ==> !AllLoadedBy(deps, done - 1)
    ensures LayeredByChains(deps, steps)
  {
    PendingEmptyIff(deps, keys, [], current, steps, done);
    forall s | 0 <= s < |steps|
      ensures steps[s] != [] && forall m :: m in steps[s] <==> LongestChain(deps, m, s + 1)
    {
      assert IsLayer(deps, steps[s], s);
      forall m ensures m in steps[s] <==> LongestChain(deps, m, s + 1) { LayerIsLongestChain(deps, m, s); }
      if steps[s] == [] { EmptyLayer(deps, steps[s], s, done); }
    }
  }

  /** Every chain of dependencies is known and leaves a stack frame for the last, empty round. */
  ghost predicate ChainsFit(deps: Dependencies, frames: nat) {
    frames > 0 && forall m :: m in deps ==> ChainsWithin(deps, m, frames - 1)
  }

  /** A permutation of the libraries in which dependencies come first, cut into its layers, each of them
      in the order of the keys. */
  ghost predicate GoodOrder(deps: Dependencies, keys: seq<Lib>, order: seq<Lib>, steps: seq<seq<Lib>>) {
    multiset(order) == multiset(keys) && LoadsInOrder(deps, order) &&
    order == Flatten(steps) && LayeredByChains(deps, steps) && AllInKeyOrder(keys, steps) && |steps| <= |keys|
  }

  lemma EmptyAlike(a: seq<Lib>, b: seq<Lib>)
    requires forall m :: m in a <==> m in b
    ensures a == [] <==> b == []
  {
    if a != [] { assert a[0] in a; }
    if b != [] { assert b[0] in b; }
  }

  /** Key order leaves one arrangement of the same libraries. */
  lemma {:induction false} ArrangedOnce(keys: seq<Lib>, a: seq<Lib>, b: seq<Lib>)
    requires Distinct(keys) && InKeyOrder(keys, a) && InKeyOrder(keys, b)
    requires forall m :: m in a <==> m in b
    ensures a == b
    decreases |a|
  {
    EmptyAlike(a, b);
    if a != [] {
      var i, j := |a| - 1, |b| - 1;
      assert a[i] in b && b[|b| - 1] in a;
      LastIsShared(keys, a, b);
      forall m ensures m in a[..i] <==> m in b[..j] {
        DropLast(keys, a, m);
        DropLast(keys, b, m);
      }
      ArrangedOnce(keys, a[..i], b[..j]);
      assert a == a[..i] + [a[i]] && b == b[..j] + [b[j]];
    }
  }

  lemma LastIsShared(keys: seq<Lib>, a: seq<Lib>, b: seq<Lib>)
    requires Distinct(keys) && InKeyOrder(keys, a) && InKeyOrder(keys, b) && a != [] && b != []
    requires a[|a| - 1] in b && b[|b| - 1] in a
    ensures a[|a| - 1] == b[|b| - 1]
  {
    var x, y := a[|a| - 1], b[|b| - 1];
    var k :| 0 <= k < |b| && b[k] == x;
    var l :| 0 <= l < |a| && a[l] == y;
    assert k < |b| - 1 ==> Position(keys, x) < Position(keys, y);
    assert l < |a| - 1 ==> Position(keys, y) < Position(keys, x);
  }

  lemma DropLast(keys: seq<Lib>, a: seq<Lib>, m: Lib)
    requires Distinct(keys) && InKeyOrder(keys, a) && a != []
    ensures m in a[..|a| - 1] <==> m in a && m != a[|a| - 1]
  {
    var n := |a| - 1;
    if m in a[..n] {
      var k :| 0 <= k < n && a[k] == m;
      assert Position(keys, a[k]) < Position(keys, a[n]);
    }
  }

  lemma LongestChainUnique(deps: Dependencies, m: Lib, n: nat, k: nat)
    requires LongestChain(deps, m, n) && LongestChain(deps, m, k)
    ensures n == k
  {
  }

  lemma {:induction false} InFlatten(steps: seq<seq<Lib>>, m: Lib)
    ensures m in Flatten(steps) <==> exists s :: 0 <= s < |steps| && m in steps[s]
  {
    if steps != [] {
      var n := |steps| - 1;
      InFlatten(steps[..n], m);
      assert steps == steps[..n] + [steps[n]];
    }
  }

  lemma SameMembers(a: seq<Lib>, b: seq<Lib>, m: Lib)
    requires multiset(a) == multiset(b)
    ensures m in a <==> m in b
  {
    assert m in a <==> m in multiset(a);
  }

  /** Both orders have a layer for every chain length that occurs. */
  lemma LayerInBoth(deps: Dependencies, keys: seq<Lib>, a: seq<seq<Lib>>, b: seq<seq<Lib>>, s: nat)
    requires GoodOrder(deps, keys, Flatten(a), a) && GoodOrder(deps, keys, Flatten(b), b) && s < |a|
    ensures s < |b|
  {
    var m := a[s][0];
    assert m in a[s];
    InFlatten(a, m);
    InFlatten(b, m);
    SameMembers(Flatten(a), Flatten(b), m);
    var t :| 0 <= t < |b| && m in b[t];
    LongestChainUnique(deps, m, s + 1, t + 1);
  }

  /** MAIN: the libraries and their dependencies leave one good order. */
  lemma GoodOrderUnique(deps: Dependencies, keys: seq<Lib>, a: seq<seq<Lib>>, b: seq<seq<Lib>>)
    requires Distinct(keys) && GoodOrder(deps, keys, Flatten(a), a) && GoodOrder(deps, keys, Flatten(b), b)
    ensures a == b
  {
    if a != [] { LayerInBoth(deps, keys, a, b, |a| - 1); }
    if b != [] { LayerInBoth(deps, keys, b, a, |b| - 1); }
    forall s | 0 <= s < |a| ensures a[s] == b[s] {
      forall m ensures m in a[s] <==> m in b[s] {
        assert m in a[s] <==> LongestChain(deps, m, s + 1);
        assert m in b[s] <==> LongestChain(deps, m, s + 1);
      }
      ArrangedOnce(keys, a[s], b[s]);
    }
  }

  /** MAIN: with more stack frames than libraries, sorting succeeds exactly when the dependency map
      is acyclic and closed; with fewer it can only fail more often. */
  lemma FramesSuffice(deps: Dependencies, keys: seq<Lib>, frames: nat)
    requires Distinct(keys) && forall m :: m in deps <==> m in keys
    ensures frames > 0 && AllLoadedBy(deps, frames - 1) <==> ChainsFit(deps, frames)
    ensures ChainsFit(deps, frames) ==> Acyclic(deps) && Closed(deps)
    ensures frames > |keys| && Acyclic(deps) && Closed(deps) ==> ChainsFit(deps, frames)
  {
    KeysLength(deps, keys);
    if frames == 0 { return; }
    AllLoadedIffAcyclicClosed(deps, frames - 1);
    forall m | m in deps ensures m in LoadedBy(deps, frames - 1) <==> ChainsWithin(deps, m, frames - 1) {
      LoadedByChains(deps, m, frames - 1);
    }
  }

  lemma GoodIsFlat(deps: Dependencies, keys: seq<Lib>, order: seq<Lib>, steps: seq<seq<Lib>>)
    requires GoodOrder(deps, keys, order, steps)
    ensures GoodOrder(deps, keys, Flatten(steps), steps)
  {
    assert order == Flatten(steps);
  }

  lemma NothingLeft(current: seq<Lib>, keys: seq<Lib>)
    requires multiset([]) + multiset(current) == multiset(keys)
    ensures multiset(current) == multiset(keys) && |current| == |keys|
  {
    assert multiset(current) == multiset(keys);
    SameLength(current, keys);
  }

  lemma LayersFit(deps: Dependencies, steps: seq<seq<Lib>>)
    requires LayeredByChains(deps, steps)
    ensures |steps| <= |Flatten(steps)|
  {
    NonEmptySteps(steps);
  }

  lemma FinishedIsGood(deps: Dependencies, keys: seq<Lib>, current: seq<Lib>, steps: seq<seq<Lib>>)
    requires IsAfter(deps, keys, [], current, steps, |steps|)
    requires |steps| > 0 ==> !AllLoadedBy(deps, |steps| - 1)
    ensures GoodOrder(deps, keys, current, steps)
  {
    FinishedIsLayered(deps, keys, current, steps, |steps|);
    LayersFit(deps, steps);
    NothingLeft(current, keys);
  }

  /** The finished layers, or None for the RecursionError of an interpreter with `frames` stack frames left. */
  method OrderInSteps(deps: Dependencies, keys: seq<Lib>, frames: nat) returns (steps: Option<seq<seq<Lib>>>)
    requires Distinct(keys) && forall m :: m in deps <==> m in keys
    ensures steps.Some? <==> frames > 0 && AllLoadedBy(deps, frames - 1)
    ensures steps.Some? ==> GoodOrder(deps, keys, Flatten(steps.value), steps.value) && |steps.value| < frames
  {
    var sorter := new Sorter(deps, keys);
    var ok := sorter.Run(frames);
    if !ok { return None; }
    GoodIsFlat(deps, keys, sorter.current, sorter.steps);
    steps := Some(sorter.steps);
  }

  /** The load order, or None for the RecursionError. */
  method SortToDependencies(deps: Dependencies, keys: seq<Lib>, frames: nat)
    returns (order: Option<seq<Lib>>, ghost steps: seq<seq<Lib>>)
    requires Distinct(keys) && forall m :: m in deps <==> m in keys
    ensures order.Some? <==> ChainsFit(deps, frames)
    ensures order.Some? ==> GoodOrder(deps, keys, order.value, steps) && |steps| < frames
  {
    var layers := OrderInSteps(deps, keys, frames);
    FramesSuffice(deps, keys, frames);
    if layers.None? { return None, []; }
    var libraries := Extend(layers.value);
    return Some(libraries), layers.value;
  }

  method Extend(layers: seq<seq<Lib>>) returns (libraries: seq<Lib>)
    ensures libraries == Flatten(layers)
  {
    libraries := [];
    for i := 0 to |layers|
      invariant libraries == Flatten(layers[..i])
    {
      libraries := libraries + layers[i];
      assert layers[..i + 1][..i] == layers[..i];
    }
    assert layers[..|layers|] == layers;
  }

  lemma {:induction false} KeysLength(deps: Dependencies, keys: seq<Lib>)
    requires Distinct(keys) && forall m :: m in deps <==> m in keys
    ensures |keys| == |deps.Keys|
  {
    if keys != [] {
      var n := |keys| - 1;
      var rest := map m | m in deps && m != keys[n] :: deps[m];
      KeysLength(rest, keys[..n]);
      assert deps.Keys == rest.Keys + {keys[n]};
    } else {
      assert deps.Keys == {};
    }
  }

  lemma SameLength(a: seq<Lib>, b: seq<Lib>)
    requires multiset(a) == multiset(b)
    ensures |a| == |b|
  {
    assert |multiset(a)| == |multiset(b)|;
  }
}
