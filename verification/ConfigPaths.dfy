/** Enumeration of configuration paths over the TypeId graph
    (utils/print-introspected-doxygen.cc, class StaticInformation). */
module ConfigPaths {
  import opened Sequences

  type TypeId = nat

  datatype Checker = Pointer(pointee: TypeId) | Container(item: TypeId) | Plain

  datatype Attribute = Attribute(name: string, checker: Checker)

  /** `ancestors` are the proper ancestors, so IsChildOf(other) is `other in ancestors`. */
  datatype TypeInfo = TypeInfo(name: string, attributes: seq<Attribute>, ancestors: set<TypeId>)

  /** All registered types, in registration order; a TypeId is an index into `types`. */
  datatype Registry = Registry(types: seq<TypeInfo>, objectType: TypeId) {
    predicate Valid() {
      forall t, i :: 0 <= t < |types| && 0 <= i < |types[t].attributes| ==>
        match types[t].attributes[i].checker
        case Pointer(p) => p < |types|
        case Container(c) => c < |types|
        case Plain => true
    }
  }

  datatype Edge = Edge(name: string, target: TypeId)

  // ---------------------------------------------------------------------------
  // The labelled graph that the three loops of DoGather walk, in their order
  // ---------------------------------------------------------------------------

  function AttributeEdge(reg: Registry, a: Attribute): seq<Edge> {
    match a.checker
    case Pointer(p) => if p == reg.objectType then [] else [Edge(a.name, p)]
    case Container(c) => [Edge(a.name + "/[i]", c)]
    case Plain => []
  }

  /** Edges of the first n attributes. */
  function AttributeEdges(reg: Registry, attributes: seq<Attribute>, n: nat): seq<Edge>
    requires n <= |attributes|
  {
    if n == 0 then [] else AttributeEdges(reg, attributes, n - 1) + AttributeEdge(reg, attributes[n - 1])
  }

  /** Edges to the first n registered types that are children of t. */
  function ChildEdges(reg: Registry, t: TypeId, n: nat): seq<Edge>
    requires n <= |reg.types|
  {
    if n == 0 then []
    else ChildEdges(reg, t, n - 1) +
         if t in reg.types[n - 1].ancestors then [Edge("$" + reg.types[n - 1].name, n - 1)] else []
  }

  predicate ValidAggregates(reg: Registry, aggregates: seq<(TypeId, TypeId)>) {
    forall i :: 0 <= i < |aggregates| ==> aggregates[i].0 < |reg.types| && aggregates[i].1 < |reg.types|
  }

  /** The other end of an aggregation that involves t; the second comparison wins. */
  function OtherEnd(t: TypeId, a: (TypeId, TypeId)): TypeId {
    if a.1 == t then a.0 else a.1
  }

  function AggregateEdge(reg: Registry, t: TypeId, a: (TypeId, TypeId)): seq<Edge>
    requires a.0 < |reg.types| && a.1 < |reg.types|
  {
    if a.0 == t || a.1 == t then
      var other := OtherEnd(t, a);
      [Edge("$" + reg.types[other].name, other)]
    else []
  }

  /** Edges of the first n aggregations. */
  function AggregateEdges(reg: Registry, t: TypeId, aggregates: seq<(TypeId, TypeId)>, n: nat): seq<Edge>
    requires ValidAggregates(reg, aggregates) && n <= |aggregates|
  {
    if n == 0 then [] else AggregateEdges(reg, t, aggregates, n - 1) + AggregateEdge(reg, t, aggregates[n - 1])
  }

  function EdgesOf(reg: Registry, aggregates: seq<(TypeId, TypeId)>, t: TypeId): seq<Edge>
    requires t < |reg.types| && ValidAggregates(reg, aggregates)
  {
    AttributeEdges(reg, reg.types[t].attributes, |reg.types[t].attributes|) +
    ChildEdges(reg, t, |reg.types|) +
    AggregateEdges(reg, t, aggregates, |aggregates|)
  }

  /** e leaves t because of the attribute a: a pointer to anything but a plain Object, or a container. */
  predicate FromAttribute(reg: Registry, a: Attribute, e: Edge) {
    (a.checker == Pointer(e.target) && e.target != reg.objectType && e.name == a.name) ||
    (a.checker == Container(e.target) && e.name == a.name + "/[i]")
  }

  /** e leaves t because t is aggregated with e.target, whichever of the two was named first. */
  predicate FromAggregate(reg: Registry, t: TypeId, a: (TypeId, TypeId), e: Edge) {
    (a == (t, e.target) || a == (e.target, t)) && e.target < |reg.types| && e.name == "$" + reg.types[e.target].name
  }

  lemma {:induction false} AttributeEdgeMeaning(reg: Registry, attributes: seq<Attribute>, n: nat, e: Edge)
    requires n <= |attributes|
    ensures e in AttributeEdges(reg, attributes, n) <==> exists i :: 0 <= i < n && FromAttribute(reg, attributes[i], e)
  {
    if n > 0 {
      AttributeEdgeMeaning(reg, attributes, n - 1, e);
      assert e in AttributeEdge(reg, attributes[n - 1]) <==> FromAttribute(reg, attributes[n - 1], e);
    }
  }

  lemma {:induction false} ChildEdgeMeaning(reg: Registry, t: TypeId, n: nat, e: Edge)
    requires n <= |reg.types|
    ensures e in ChildEdges(reg, t, n) <==>
            e.target < n && t in reg.types[e.target].ancestors && e.name == "$" + reg.types[e.target].name
  {
    if n > 0 { ChildEdgeMeaning(reg, t, n - 1, e); }
  }

  lemma {:induction false} AggregateEdgeMeaning(
    reg: Registry, t: TypeId, aggregates: seq<(TypeId, TypeId)>, n: nat, e: Edge)
    requires ValidAggregates(reg, aggregates) && n <= |aggregates|
    ensures e in AggregateEdges(reg, t, aggregates, n) <==>
            exists i :: 0 <= i < n && FromAggregate(reg, t, aggregates[i], e)
  {
    if n > 0 {
      AggregateEdgeMeaning(reg, t, aggregates, n - 1, e);
      assert e in AggregateEdge(reg, t, aggregates[n - 1]) <==> FromAggregate(reg, t, aggregates[n - 1], e);
    }
  }

  /** Which edges leave a type, whatever their order. */
  lemma EdgeMeaning(reg: Registry, aggregates: seq<(TypeId, TypeId)>, t: TypeId, e: Edge)
    requires t < |reg.types| && ValidAggregates(reg, aggregates)
    ensures e in EdgesOf(reg, aggregates, t) <==>
            (exists i :: 0 <= i < |reg.types[t].attributes| && FromAttribute(reg, reg.types[t].attributes[i], e)) ||
            (e.target < |reg.types| && t in reg.types[e.target].ancestors &&
             e.name == "$" + reg.types[e.target].name) ||
            (exists i :: 0 <= i < |aggregates| && FromAggregate(reg, t, aggregates[i], e))
  {
    AttributeEdgeMeaning(reg, reg.types[t].attributes, |reg.types[t].attributes|, e);
    ChildEdgeMeaning(reg, t, |reg.types|, e);
    AggregateEdgeMeaning(reg, t, aggregates, |aggregates|, e);
  }

  /** The attribute, the registered type or the aggregation that an edge comes from. */
  datatype Source = OfAttribute(index: nat) | OfChild(index: nat) | OfAggregate(index: nat)

  predicate Gives(reg: Registry, aggregates: seq<(TypeId, TypeId)>, t: TypeId, s: Source, e: Edge)
    requires t < |reg.types|
  {
    match s
    case OfAttribute(i) => i < |reg.types[t].attributes| && FromAttribute(reg, reg.types[t].attributes[i], e)
    case OfChild(j) => j < |reg.types| && t in reg.types[j].ancestors && e == Edge("$" + reg.types[j].name, j)
    case OfAggregate(k) => k < |aggregates| && FromAggregate(reg, t, aggregates[k], e)
  }

  /** Attributes come before children and children before aggregations, each in their own order. */
  predicate Earlier(a: Source, b: Source) {
    match a
    case OfAttribute(i) => b.OfAttribute? ==> i < b.index
    case OfChild(i) => !b.OfAttribute? && (b.OfChild? ==> i < b.index)
    case OfAggregate(i) => b.OfAggregate? && i < b.index
  }

  lemma {:induction false} AttributePositions(reg: Registry, attributes: seq<Attribute>, n: nat) returns (p: seq<nat>)
    requires n <= |attributes|
    ensures |p| == |AttributeEdges(reg, attributes, n)| && Increasing(p)
    ensures forall i :: 0 <= i < |p| ==>
      p[i] < n && FromAttribute(reg, attributes[p[i]], AttributeEdges(reg, attributes, n)[i])
    ensures forall k, e :: 0 <= k < n && FromAttribute(reg, attributes[k], e) ==> k in p
  {
    if n == 0 {
      p := [];
    } else {
      p := AttributePositions(reg, attributes, n - 1);
      if AttributeEdge(reg, attributes[n - 1]) != [] {
        IncreasingSnoc(p, n - 1);
        p := p + [n - 1];
      }
    }
  }

  lemma {:induction false} ChildPositions(reg: Registry, t: TypeId, n: nat) returns (p: seq<nat>)
    requires n <= |reg.types|
    ensures |p| == |ChildEdges(reg, t, n)| && Increasing(p)
    ensures forall i :: 0 <= i < |p| ==>
      p[i] < n && t in reg.types[p[i]].ancestors && ChildEdges(reg, t, n)[i] == Edge("$" + reg.types[p[i]].name, p[i])
    ensures forall k :: 0 <= k < n && t in reg.types[k].ancestors ==> k in p
  {
    if n == 0 {
      p := [];
    } else {
      p := ChildPositions(reg, t, n - 1);
      if t in reg.types[n - 1].ancestors {
        IncreasingSnoc(p, n - 1);
        p := p + [n - 1];
      }
    }
  }

  lemma {:induction false} AggregatePositions(
    reg: Registry, t: TypeId, aggregates: seq<(TypeId, TypeId)>, n: nat) returns (p: seq<nat>)
    requires ValidAggregates(reg, aggregates) && n <= |aggregates|
    ensures |p| == |AggregateEdges(reg, t, aggregates, n)| && Increasing(p)
    ensures forall i :: 0 <= i < |p| ==>
      p[i] < n && FromAggregate(reg, t, aggregates[p[i]], AggregateEdges(reg, t, aggregates, n)[i])
    ensures forall k, e :: 0 <= k < n && FromAggregate(reg, t, aggregates[k], e) ==> k in p
  {
    if n == 0 {
      p := [];
    } else {
      p := AggregatePositions(reg, t, aggregates, n - 1);
      if AggregateEdge(reg, t, aggregates[n - 1]) != [] {
        IncreasingSnoc(p, n - 1);
        p := p + [n - 1];
      }
    }
  }

  /** The sources of a type's edges, in the order of the edges. */
  ghost predicate SourcesOf(
    reg: Registry, aggregates: seq<(TypeId, TypeId)>, t: TypeId, es: seq<Edge>, sources: seq<Source>)
    requires t < |reg.types|
  {
    |sources| == |es| &&
    (forall i, j :: 0 <= i < j < |sources| ==> Earlier(sources[i], sources[j])) &&
    (forall i :: 0 <= i < |es| ==> Gives(reg, aggregates, t, sources[i], es[i])) &&
    (forall s, e :: Gives(reg, aggregates, t, s, e) ==> s in sources)
  }

  function Sources(p: seq<nat>, q: seq<nat>, r: seq<nat>): (ss: seq<Source>)
    ensures |ss| == |p| + |q| + |r|
  {
    AttributeSources(p) + ChildSources(q) + AggregateSources(r)
  }

  function AttributeSources(p: seq<nat>): (ss: seq<Source>)
    ensures |ss| == |p| && forall i :: 0 <= i < |p| ==> ss[i] == OfAttribute(p[i])
  {
    seq(|p|, i requires 0 <= i < |p| => OfAttribute(p[i]))
  }

  function ChildSources(p: seq<nat>): (ss: seq<Source>)
    ensures |ss| == |p| && forall i :: 0 <= i < |p| ==> ss[i] == OfChild(p[i])
  {
    seq(|p|, i requires 0 <= i < |p| => OfChild(p[i]))
  }

  function AggregateSources(p: seq<nat>): (ss: seq<Source>)
    ensures |ss| == |p| && forall i :: 0 <= i < |p| ==> ss[i] == OfAggregate(p[i])
  {
    seq(|p|, i requires 0 <= i < |p| => OfAggregate(p[i]))
  }

  lemma SourcesOrdered(p: seq<nat>, q: seq<nat>, r: seq<nat>)
    requires Increasing(p) && Increasing(q) && Increasing(r)
    ensures var ss := Sources(p, q, r); forall i, j :: 0 <= i < j < |ss| ==> Earlier(ss[i], ss[j])
  {
    var earlier := (a: Source, b: Source) => Earlier(a, b);
    OrderedConcat(AttributeSources(p), ChildSources(q), earlier);
    OrderedConcat(AttributeSources(p) + ChildSources(q), AggregateSources(r), earlier);
    var ss := Sources(p, q, r);
    forall i, j | 0 <= i < j < |ss| ensures Earlier(ss[i], ss[j]) { assert earlier(ss[i], ss[j]); }
  }

  lemma SourcesContain(p: seq<nat>, q: seq<nat>, r: seq<nat>, s: Source)
    requires match s case OfAttribute(k) => k in p case OfChild(k) => k in q case OfAggregate(k) => k in r
    ensures s in Sources(p, q, r)
  {
    match s
    case OfAttribute(k) =>
      var i :| 0 <= i < |p| && p[i] == k;
      assert AttributeSources(p)[i] == s;
    case OfChild(k) =>
      var i :| 0 <= i < |q| && q[i] == k;
      assert ChildSources(q)[i] == s;
    case OfAggregate(k) =>
      var i :| 0 <= i < |r| && r[i] == k;
      assert AggregateSources(r)[i] == s;
  }

  /** MAIN: the edges of a type are in the order of their sources, one for each source. */
  lemma EdgesInOrder(reg: Registry, aggregates: seq<(TypeId, TypeId)>, t: TypeId) returns (sources: seq<Source>)
    requires t < |reg.types| && ValidAggregates(reg, aggregates)
    ensures SourcesOf(reg, aggregates, t, EdgesOf(reg, aggregates, t), sources)
  {
    var attributes := reg.types[t].attributes;
    var p := AttributePositions(reg, attributes, |attributes|);
    var q := ChildPositions(reg, t, |reg.types|);
    var r := AggregatePositions(reg, t, aggregates, |aggregates|);
    sources := Sources(p, q, r);
    SourcesOrdered(p, q, r);
    forall s, e | Gives(reg, aggregates, t, s, e) ensures s in sources { SourcesContain(p, q, r, s); }
    var gives := (s: Source, e: Edge) => Gives(reg, aggregates, t, s, e);
    var a, b, c := AttributeEdges(reg, attributes, |attributes|), ChildEdges(reg, t, |reg.types|),
        AggregateEdges(reg, t, aggregates, |aggregates|);
    forall i | 0 <= i < |p| ensures gives(AttributeSources(p)[i], a[i]) {}
    forall i | 0 <= i < |q| ensures gives(ChildSources(q)[i], b[i]) {}
    forall i | 0 <= i < |r| ensures gives(AggregateSources(r)[i], c[i]) {}
    RelatedConcat(AttributeSources(p), a, ChildSources(q), b, gives);
    RelatedConcat(AttributeSources(p) + ChildSources(q), a + b, AggregateSources(r), c, gives);
    forall i | 0 <= i < |sources| ensures Gives(reg, aggregates, t, sources[i], EdgesOf(reg, aggregates, t)[i]) {
      assert gives(sources[i], EdgesOf(reg, aggregates, t)[i]);
    }
  }

  /** Adjacency lists: g[t] are the outgoing edges of t, in the order they are followed. */
  type Graph = seq<seq<Edge>>

  predicate ValidGraph(g: Graph) {
    forall t, i :: 0 <= t < |g| && 0 <= i < |g[t]| ==> g[t][i].target < |g|
  }

  /** g is the type graph of a registry and its aggregations. */
  ghost predicate IsGraphOf(g: Graph, reg: Registry, aggregates: seq<(TypeId, TypeId)>)
    requires ValidAggregates(reg, aggregates)
  {
    |g| == |reg.types| && ValidGraph(g) && forall t :: 0 <= t < |g| ==> g[t] == EdgesOf(reg, aggregates, t)
  }

  predicate TargetsBelow(es: seq<Edge>, n: nat) {
    forall i :: 0 <= i < |es| ==> es[i].target < n
  }

  lemma {:induction false} AttributeTargets(reg: Registry, t: TypeId, n: nat)
    requires reg.Valid() && t < |reg.types| && n <= |reg.types[t].attributes|
    ensures TargetsBelow(AttributeEdges(reg, reg.types[t].attributes, n), |reg.types|)
  {
    if n > 0 { AttributeTargets(reg, t, n - 1); }
  }

  lemma {:induction false} ChildTargets(reg: Registry, t: TypeId, n: nat)
    requires n <= |reg.types|
    ensures TargetsBelow(ChildEdges(reg, t, n), |reg.types|)
  {
    if n > 0 { ChildTargets(reg, t, n - 1); }
  }

  lemma {:induction false} AggregateTargets(reg: Registry, t: TypeId, aggregates: seq<(TypeId, TypeId)>, n: nat)
    requires ValidAggregates(reg, aggregates) && n <= |aggregates|
    ensures TargetsBelow(AggregateEdges(reg, t, aggregates, n), |reg.types|)
  {
    if n > 0 { AggregateTargets(reg, t, aggregates, n - 1); }
  }

  lemma EdgeTargets(reg: Registry, aggregates: seq<(TypeId, TypeId)>, t: TypeId)
    requires reg.Valid() && ValidAggregates(reg, aggregates) && t < |reg.types|
    ensures TargetsBelow(EdgesOf(reg, aggregates, t), |reg.types|)
  {
    AttributeTargets(reg, t, |reg.types[t].attributes|);
    ChildTargets(reg, t, |reg.types|);
    AggregateTargets(reg, t, aggregates, |aggregates|);
  }

  ghost function GraphOf(reg: Registry, aggregates: seq<(TypeId, TypeId)>): (g: Graph)
    requires reg.Valid() && ValidAggregates(reg, aggregates)
    ensures IsGraphOf(g, reg, aggregates)
  {
    var g := seq(|reg.types|, t requires 0 <= t < |reg.types| => EdgesOf(reg, aggregates, t));
    assert ValidGraph(g) by {
      forall t | 0 <= t < |g| ensures TargetsBelow(g[t], |g|) { EdgeTargets(reg, aggregates, t); }
    }
    g
  }

  // ---------------------------------------------------------------------------
  // Reference definition: simple paths, independent of any search
  // ---------------------------------------------------------------------------

  /** A walk is the sequence of edge positions taken from its start. */
  type Walk = seq<nat>

  predicate IsWalk(g: Graph, t: TypeId, w: Walk)
    requires ValidGraph(g) && t < |g|
    decreases |w|
  {
    w == [] || (w[0] < |g[t]| && IsWalk(g, g[t][w[0]].target, w[1..]))
  }

  /** The types met along a walk, both ends included. */
  function TypesAlong(g: Graph, t: TypeId, w: Walk): seq<TypeId>
    requires ValidGraph(g) && t < |g| && IsWalk(g, t, w)
    decreases |w|
  {
    if w == [] then [t] else [t] + TypesAlong(g, g[t][w[0]].target, w[1..])
  }

  predicate Distinct<T(==)>(s: seq<T>) {
    forall i, j :: 0 <= i < j < |s| ==> s[i] != s[j]
  }

  /** A walk that never revisits a type and avoids the types in `avoid`. */
  predicate IsSimplePath(g: Graph, t: TypeId, avoid: set<TypeId>, w: Walk)
    requires ValidGraph(g) && t < |g|
  {
    IsWalk(g, t, w) &&
    Distinct(TypesAlong(g, t, w)) &&
    forall i :: 0 <= i < |TypesAlong(g, t, w)| ==> TypesAlong(g, t, w)[i] !in avoid
  }

  function PathString(g: Graph, t: TypeId, w: Walk): string
    requires ValidGraph(g) && t < |g| && IsWalk(g, t, w)
    decreases |w|
  {
    if w == [] then ""
    else "/" + g[t][w[0]].name + PathString(g, g[t][w[0]].target, w[1..])
  }

  function EndOf(g: Graph, t: TypeId, w: Walk): TypeId
    requires ValidGraph(g) && t < |g| && IsWalk(g, t, w)
    decreases |w|
  {
    if w == [] then t else EndOf(g, g[t][w[0]].target, w[1..])
  }

  /** Preorder of the search tree: prefixes first, then by position of the first different edge. */
  predicate Precedes(v: Walk, w: Walk)
    decreases |v|
  {
    if w == [] then false
    else if v == [] then true
    else v[0] < w[0] || (v[0] == w[0] && Precedes(v[1..], w[1..]))
  }

  // ---------------------------------------------------------------------------
  // The enumeration that DoGather performs
  // ---------------------------------------------------------------------------

  function Prepend(i: nat, ws: seq<Walk>): (r: seq<Walk>)
    ensures |r| == |ws| && forall j :: 0 <= j < |ws| ==> r[j] == [i] + ws[j]
  {
    seq(|ws|, j requires 0 <= j < |ws| => [i] + ws[j])
  }

  function FirstTypes(n: nat): (s: set<TypeId>)
    ensures forall x: TypeId :: x in s <==> x < n
  {
    if n == 0 then {} else FirstTypes(n - 1) + {n - 1}
  }

  /** The termination measure: the types that are not on the ancestor stack. */
  function Unvisited(g: Graph, avoid: set<TypeId>): set<TypeId> {
    FirstTypes(|g|) - avoid
  }

  ghost function Visit(g: Graph, t: TypeId, avoid: set<TypeId>): seq<Walk>
    requires ValidGraph(g) && t < |g|
    decreases Unvisited(g, avoid), 1, 0
  {
    if t in avoid then [] else [[]] + VisitEdges(g, t, avoid, |g[t]|)
  }

  /** The walks that start with one of the first k edges of t. */
  ghost function VisitEdges(g: Graph, t: TypeId, avoid: set<TypeId>, k: nat): seq<Walk>
    requires ValidGraph(g) && t < |g| && t !in avoid && k <= |g[t]|
    decreases Unvisited(g, avoid), 0, k
  {
    if k == 0 then []
    else
      assert t in Unvisited(g, avoid) && t !in Unvisited(g, avoid + {t});
      VisitEdges(g, t, avoid, k - 1) + Prepend(k - 1, Visit(g, g[t][k - 1].target, avoid + {t}))
  }

  /** IsSimplePath unfolds along the first edge. */
  lemma SimplePathStep(g: Graph, t: TypeId, avoid: set<TypeId>, w: Walk)
    requires ValidGraph(g) && t < |g| && w != [] && w[0] < |g[t]|
    ensures IsSimplePath(g, t, avoid, w) <==>
            t !in avoid && IsSimplePath(g, g[t][w[0]].target, avoid + {t}, w[1..])
  {
    var u := g[t][w[0]].target;
    if IsWalk(g, t, w) {
      var rest := TypesAlong(g, u, w[1..]);
      var all := TypesAlong(g, t, w);
      assert all == [t] + rest;
      assert all[0] == t;
      if IsSimplePath(g, t, avoid, w) {
        forall i | 0 <= i < |rest| ensures rest[i] !in avoid + {t} { assert all[i + 1] == rest[i]; }
        forall i, j | 0 <= i < j < |rest| ensures rest[i] != rest[j] {
          assert all[i + 1] == rest[i] && all[j + 1] == rest[j];
        }
      }
    }
  }

  /** Soundness and completeness: exactly the simple paths are enumerated. */
  lemma {:induction false} VisitIsExact(g: Graph, t: TypeId, avoid: set<TypeId>, w: Walk)
    requires ValidGraph(g) && t < |g|
    ensures w in Visit(g, t, avoid) <==> IsSimplePath(g, t, avoid, w)
    decreases Unvisited(g, avoid), 1, 0
  {
    if t in avoid {
      if IsWalk(g, t, w) { assert TypesAlong(g, t, w)[0] == t; }
    } else {
      VisitEdgesIsExact(g, t, avoid, |g[t]|, w);
      if w == [] {
        assert Visit(g, t, avoid)[0] == w;
        assert TypesAlong(g, t, w) == [t];
      }
    }
  }

  lemma {:induction false} VisitEdgesIsExact(g: Graph, t: TypeId, avoid: set<TypeId>, k: nat, w: Walk)
    requires ValidGraph(g) && t < |g| && t !in avoid && k <= |g[t]|
    ensures w in VisitEdges(g, t, avoid, k) <==> w != [] && w[0] < k && IsSimplePath(g, t, avoid, w)
    decreases Unvisited(g, avoid), 0, k
  {
    if k > 0 {
      assert t in Unvisited(g, avoid) && t !in Unvisited(g, avoid + {t});
      VisitEdgesIsExact(g, t, avoid, k - 1, w);
      var u := g[t][k - 1].target;
      var sub := Visit(g, u, avoid + {t});
      if w != [] && w[0] == k - 1 {
        VisitIsExact(g, u, avoid + {t}, w[1..]);
        SimplePathStep(g, t, avoid, w);
        assert w == [k - 1] + w[1..];
        if w[1..] in sub {
          var j :| 0 <= j < |sub| && sub[j] == w[1..];
          assert Prepend(k - 1, sub)[j] == w;
        }
        if w in Prepend(k - 1, sub) {
          var j :| 0 <= j < |sub| && Prepend(k - 1, sub)[j] == w;
          assert w[1..] == sub[j];
        }
      } else {
        assert w !in Prepend(k - 1, sub);
      }
    }
  }

  predicate InPreorder(ws: seq<Walk>) {
    forall i, j :: 0 <= i < j < |ws| ==> Precedes(ws[i], ws[j])
  }

  /** The enumeration is strictly increasing in preorder, so nothing is listed twice. */
  lemma {:induction false} VisitIsPreorder(g: Graph, t: TypeId, avoid: set<TypeId>)
    requires ValidGraph(g) && t < |g|
    ensures InPreorder(Visit(g, t, avoid))
    decreases Unvisited(g, avoid), 1, 0
  {
    if t !in avoid {
      VisitEdgesIsPreorder(g, t, avoid, |g[t]|);
      var ws := VisitEdges(g, t, avoid, |g[t]|);
      forall j | 0 <= j < |ws| ensures Precedes([], ws[j]) {
        VisitEdgesIsExact(g, t, avoid, |g[t]|, ws[j]);
      }
    }
  }

  lemma {:induction false} VisitEdgesIsPreorder(g: Graph, t: TypeId, avoid: set<TypeId>, k: nat)
    requires ValidGraph(g) && t < |g| && t !in avoid && k <= |g[t]|
    ensures InPreorder(VisitEdges(g, t, avoid, k))
    decreases Unvisited(g, avoid), 0, k
  {
    if k > 0 {
      assert t in Unvisited(g, avoid) && t !in Unvisited(g, avoid + {t});
      VisitEdgesIsPreorder(g, t, avoid, k - 1);
      var sub := Visit(g, g[t][k - 1].target, avoid + {t});
      VisitIsPreorder(g, g[t][k - 1].target, avoid + {t});
      var before, after := VisitEdges(g, t, avoid, k - 1), Prepend(k - 1, sub);
      forall w | w in before ensures w != [] && w[0] < k - 1 { VisitEdgesIsExact(g, t, avoid, k - 1, w); }
      forall i, j | 0 <= i < j < |after| ensures Precedes(after[i], after[j]) {
        assert after[i][1..] == sub[i] && after[j][1..] == sub[j];
      }
    }
  }

  lemma {:induction false} PrecedesIsStrict(w: Walk)
    ensures !Precedes(w, w)
    decreases |w|
  {
    if w != [] { PrecedesIsStrict(w[1..]); }
  }

  /** MAIN: one listing per simple path from the root, in preorder, none twice. */
  lemma SimplePathsListedOnce(g: Graph, root: TypeId)
    requires ValidGraph(g) && root < |g|
    ensures forall w: Walk :: w in Visit(g, root, {}) <==> IsWalk(g, root, w) && Distinct(TypesAlong(g, root, w))
    ensures InPreorder(Visit(g, root, {})) && Distinct(Visit(g, root, {}))
  {
    forall w: Walk
      ensures w in Visit(g, root, {}) <==> IsWalk(g, root, w) && Distinct(TypesAlong(g, root, w))
    {
      VisitIsExact(g, root, {}, w);
    }
    VisitIsPreorder(g, root, {});
    var ws := Visit(g, root, {});
    forall i, j | 0 <= i < j < |ws| ensures ws[i] != ws[j] {
      PrecedesIsStrict(ws[i]);
    }
  }

  // ---------------------------------------------------------------------------
  // The recorded entries
  // ---------------------------------------------------------------------------

  type Entry = (TypeId, string)

  function JoinPath(path: seq<string>): string {
    if path == [] then ""
    else JoinPath(path[..|path| - 1]) + "/" + path[|path| - 1]
  }

  /** The entry of a walk from t, below the path `prefix`. */
  function EntryOf(g: Graph, t: TypeId, prefix: string, w: Walk): Entry
    requires ValidGraph(g) && t < |g| && IsWalk(g, t, w)
    decreases |w|
  {
    if w == [] then (t, prefix)
    else EntryOf(g, g[t][w[0]].target, prefix + "/" + g[t][w[0]].name, w[1..])
  }

  /** It names the type that the walk reaches and the path that the walk spells. */
  lemma {:induction false} EntryNamesEndAndPath(g: Graph, t: TypeId, prefix: string, w: Walk)
    requires ValidGraph(g) && t < |g| && IsWalk(g, t, w)
    ensures EntryOf(g, t, prefix, w) == (EndOf(g, t, w), prefix + PathString(g, t, w))
    decreases |w|
  {
    if w == [] {
      assert prefix + "" == prefix;
    } else {
      var step, rest := "/" + g[t][w[0]].name, PathString(g, g[t][w[0]].target, w[1..]);
      EntryNamesEndAndPath(g, g[t][w[0]].target, prefix + "/" + g[t][w[0]].name, w[1..]);
      assert prefix + "/" + g[t][w[0]].name + rest == prefix + (step + rest);
    }
  }

  lemma RootEntry(g: Graph, root: TypeId, w: Walk)
    requires ValidGraph(g) && root < |g| && IsWalk(g, root, w)
    ensures EntryOf(g, root, "", w) == (EndOf(g, root, w), PathString(g, root, w))
  {
    EntryNamesEndAndPath(g, root, "", w);
    assert "" + PathString(g, root, w) == PathString(g, root, w);
  }

  predicate AreWalks(g: Graph, t: TypeId, ws: seq<Walk>)
    requires ValidGraph(g) && t < |g|
  {
    forall i :: 0 <= i < |ws| ==> IsWalk(g, t, ws[i])
  }

  /** One entry per walk. */
  function Entries(g: Graph, t: TypeId, prefix: string, ws: seq<Walk>): seq<Entry>
    requires ValidGraph(g) && t < |g| && AreWalks(g, t, ws)
  {
    seq(|ws|, i requires 0 <= i < |ws| => EntryOf(g, t, prefix, ws[i]))
  }

  lemma VisitedAreWalks(g: Graph, t: TypeId, avoid: set<TypeId>)
    requires ValidGraph(g) && t < |g|
    ensures AreWalks(g, t, Visit(g, t, avoid))
  {
    forall i | 0 <= i < |Visit(g, t, avoid)| ensures IsWalk(g, t, Visit(g, t, avoid)[i]) {
      VisitIsExact(g, t, avoid, Visit(g, t, avoid)[i]);
    }
  }

  /** What DoGather(t) appends below `prefix` when the types in `avoid` are its ancestors. */
  ghost function Gathered(g: Graph, t: TypeId, avoid: set<TypeId>, prefix: string): seq<Entry>
    requires ValidGraph(g) && t < |g|
    decreases Unvisited(g, avoid), 1, 0
  {
    if t in avoid then [] else GatheredVia(g, t, avoid, prefix, g[t])
  }

  /** What has been appended once the edges `es` of t were followed. */
  ghost function GatheredVia(g: Graph, t: TypeId, avoid: set<TypeId>, prefix: string, es: seq<Edge>): seq<Entry>
    requires ValidGraph(g) && t < |g| && t !in avoid && TargetsBelow(es, |g|)
    decreases Unvisited(g, avoid), 0, |es|
  {
    if es == [] then [(t, prefix)]
    else
      assert t in Unvisited(g, avoid) && t !in Unvisited(g, avoid + {t});
      var e := es[|es| - 1];
      GatheredVia(g, t, avoid, prefix, es[..|es| - 1]) + Gathered(g, e.target, avoid + {t}, prefix + "/" + e.name)
  }

  /** The entries are those of the enumerated walks, in the same order. */
  lemma {:induction false} GatheredAreEntries(g: Graph, t: TypeId, avoid: set<TypeId>, prefix: string)
    requires ValidGraph(g) && t < |g|
    ensures var ws := Visit(g, t, avoid);
      AreWalks(g, t, ws) &&
      Gathered(g, t, avoid, prefix) == Entries(g, t, prefix, ws)
    decreases Unvisited(g, avoid), 1, 0
  {
    VisitedAreWalks(g, t, avoid);
    if t !in avoid {
      GatheredViaAreEntries(g, t, avoid, prefix, |g[t]|);
      assert g[t][..|g[t]|] == g[t];
    }
  }

  lemma {:induction false} GatheredViaAreEntries(
    g: Graph, t: TypeId, avoid: set<TypeId>, prefix: string, k: nat)
    requires ValidGraph(g) && t < |g| && t !in avoid && k <= |g[t]|
    ensures var ws := VisitEdges(g, t, avoid, k);
      AreWalks(g, t, ws) &&
      GatheredVia(g, t, avoid, prefix, g[t][..k]) == [(t, prefix)] + Entries(g, t, prefix, ws)
    decreases Unvisited(g, avoid), 0, k
  {
    if k > 0 {
      var u, below := g[t][k - 1].target, prefix + "/" + g[t][k - 1].name;
      var first := VisitEdges(g, t, avoid, k - 1);
      assert t in Unvisited(g, avoid) && t !in Unvisited(g, avoid + {t});
      GatheredViaAreEntries(g, t, avoid, prefix, k - 1);
      GatheredAreEntries(g, u, avoid + {t}, below);
      GatheredViaStep(g, t, avoid, prefix, k - 1);
      PrependEntries(g, t, prefix, k - 1, Visit(g, u, avoid + {t}));
      AppendEntries(g, t, prefix, first, Prepend(k - 1, Visit(g, u, avoid + {t})));
      Reassociate([(t, prefix)], Entries(g, t, prefix, first), Gathered(g, u, avoid + {t}, below));
    }
  }

  lemma Reassociate<T>(a: seq<T>, b: seq<T>, c: seq<T>)
    ensures (a + b) + c == a + (b + c)
  {
  }

  lemma GatheredViaStep(g: Graph, t: TypeId, avoid: set<TypeId>, prefix: string, k: nat)
    requires ValidGraph(g) && t < |g| && t !in avoid && k < |g[t]|
    ensures GatheredVia(g, t, avoid, prefix, g[t][..k + 1]) ==
            GatheredVia(g, t, avoid, prefix, g[t][..k]) +
            Gathered(g, g[t][k].target, avoid + {t}, prefix + "/" + g[t][k].name)
  {
    assert g[t][..k + 1][..k] == g[t][..k];
  }

  lemma AppendEntries(g: Graph, t: TypeId, prefix: string, vs: seq<Walk>, ws: seq<Walk>)
    requires ValidGraph(g) && t < |g| && AreWalks(g, t, vs) && AreWalks(g, t, ws)
    ensures AreWalks(g, t, vs + ws)
    ensures Entries(g, t, prefix, vs + ws) == Entries(g, t, prefix, vs) + Entries(g, t, prefix, ws)
  {
  }

  /** Putting an edge in front of walks moves its name from the walks to the prefix. */
  lemma PrependEntries(g: Graph, t: TypeId, prefix: string, k: nat, ws: seq<Walk>)
    requires ValidGraph(g) && t < |g| && k < |g[t]| && AreWalks(g, g[t][k].target, ws)
    ensures AreWalks(g, t, Prepend(k, ws))
    ensures Entries(g, t, prefix, Prepend(k, ws)) ==
            Entries(g, g[t][k].target, prefix + "/" + g[t][k].name, ws)
  {
    forall i | 0 <= i < |ws| ensures IsWalk(g, t, [k] + ws[i])
      ensures EntryOf(g, t, prefix, [k] + ws[i]) ==
              EntryOf(g, g[t][k].target, prefix + "/" + g[t][k].name, ws[i])
    {
      assert ([k] + ws[i])[1..] == ws[i];
    }
  }

  /** MAIN: gathering a root records each of its simple paths exactly once, in preorder. */
  lemma RootIsGatheredExactly(g: Graph, root: TypeId)
    requires ValidGraph(g) && root < |g|
    ensures var ws := Visit(g, root, {});
      Distinct(ws) && InPreorder(ws) &&
      (forall w: Walk :: w in ws <==> IsWalk(g, root, w) && Distinct(TypesAlong(g, root, w))) &&
      Gathered(g, root, {}, "") == Entries(g, root, "", ws)
  {
    SimplePathsListedOnce(g, root);
    GatheredAreEntries(g, root, {}, "");
  }

  // ---------------------------------------------------------------------------
  // The gatherer itself
  // ---------------------------------------------------------------------------

  /** The first index at which s occurs in the names, as TypeId::LookupByNameFailSafe does. */
  function Lookup(types: seq<TypeInfo>, name: string): (t: nat)
    ensures t <= |types|
    ensures t < |types| ==> types[t].name == name
    ensures forall i :: 0 <= i < t ==> types[i].name != name
    ensures t == |types| ==> forall i :: 0 <= i < |types| ==> types[i].name != name
  {
    if types == [] || types[0].name == name then 0 else 1 + Lookup(types[1..], name)
  }

  /** The paths recorded for one type, in recording order. */
  function PathsOf(output: seq<Entry>, tid: TypeId): seq<string> {
    if output == [] then []
    else
      var n := |output| - 1;
      PathsOf(output[..n], tid) + if output[n].0 == tid then [output[n].1] else []
  }

  lemma {:induction false} PathsOfMembers(output: seq<Entry>, tid: TypeId, path: string)
    ensures path in PathsOf(output, tid) <==> (tid, path) in output
  {
    if output != [] {
      var n := |output| - 1;
      PathsOfMembers(output[..n], tid, path);
      assert output == output[..n] + [output[n]];
    }
  }

  /** p are the positions of the entries for tid, in order, and `paths` are their paths. */
  ghost predicate ListsPaths(output: seq<Entry>, tid: TypeId, paths: seq<string>, p: seq<nat>) {
    |p| == |paths| && Increasing(p) &&
    (forall i :: 0 <= i < |p| ==> p[i] < |output| && output[p[i]] == (tid, paths[i])) &&
    (forall k :: 0 <= k < |output| && output[k].0 == tid ==> k in p)
  }

  /** MAIN: every entry for the type is listed, as often as it is there and in recording order. */
  lemma {:induction false} PathsOfPositions(output: seq<Entry>, tid: TypeId) returns (p: seq<nat>)
    ensures ListsPaths(output, tid, PathsOf(output, tid), p)
  {
    if output == [] {
      p := [];
    } else {
      var n := |output| - 1;
      p := PathsOfPositions(output[..n], tid);
      if output[n].0 == tid {
        IncreasingSnoc(p, n);
        p := p + [n];
      }
      forall k | 0 <= k < |output| && output[k].0 == tid ensures k in p {
        if k < n { assert output[..n][k] == output[k]; }
      }
    }
  }

  /** w is a simple path from root to tid that spells `path`. */
  predicate Spells(g: Graph, root: TypeId, w: Walk, tid: TypeId, path: string)
    requires ValidGraph(g) && root < |g|
  {
    IsWalk(g, root, w) && Distinct(TypesAlong(g, root, w)) &&
    EndOf(g, root, w) == tid && PathString(g, root, w) == path
  }

  predicate AreTypes(roots: seq<TypeId>, n: nat) {
    forall k :: 0 <= k < |roots| ==> roots[k] < n
  }

  /** What gathering the first n roots one after the other leaves. */
  ghost function GatheredRoots(g: Graph, roots: seq<TypeId>, n: nat): seq<Entry>
    requires ValidGraph(g) && AreTypes(roots, |g|) && n <= |roots|
  {
    if n == 0 then [] else GatheredRoots(g, roots, n - 1) + Gathered(g, roots[n - 1], {}, "")
  }

  ghost predicate IsSegment(g: Graph, roots: seq<TypeId>, output: seq<Entry>, at: seq<nat>, k: nat)
    requires ValidGraph(g) && AreTypes(roots, |g|) && k < |roots| && |at| == |roots| + 1
  {
    at[k] <= at[k + 1] <= |output| && output[at[k]..at[k + 1]] == Gathered(g, roots[k], {}, "")
  }

  /** Where the entries of each root begin; the last number is where all of them end. */
  ghost predicate AreSegments(g: Graph, roots: seq<TypeId>, output: seq<Entry>, at: seq<nat>)
    requires ValidGraph(g) && AreTypes(roots, |g|)
  {
    |at| == |roots| + 1 && at[0] == 0 && at[|roots|] == |output| &&
    forall k :: 0 <= k < |roots| ==> IsSegment(g, roots, output, at, k)
  }

  /** MAIN: the entries of the roots follow each other in the order of the roots. */
  lemma {:induction false} RootsInOrder(g: Graph, roots: seq<TypeId>) returns (at: seq<nat>)
    requires ValidGraph(g) && AreTypes(roots, |g|)
    ensures AreSegments(g, roots, GatheredRoots(g, roots, |roots|), at)
    decreases |roots|
  {
    if roots == [] {
      at := [0];
    } else {
      var n := |roots| - 1;
      var before, last := GatheredRoots(g, roots, n), Gathered(g, roots[n], {}, "");
      FirstRoots(g, roots, n, n);
      var first := RootsInOrder(g, roots[..n]);
      at := first + [|before| + |last|];
      forall k | 0 <= k < |roots| ensures IsSegment(g, roots, before + last, at, k) {
        if k < n {
          assert IsSegment(g, roots[..n], before, first, k);
          SegmentStays(before, last, first[k], first[k + 1]);
        } else {
          assert (before + last)[|before|..|before| + |last|] == last;
        }
      }
    }
  }

  lemma SegmentStays(before: seq<Entry>, last: seq<Entry>, i: nat, j: nat)
    requires i <= j <= |before|
    ensures (before + last)[i..j] == before[i..j]
  {
  }

  lemma {:induction false} FirstRoots(g: Graph, roots: seq<TypeId>, m: nat, n: nat)
    requires ValidGraph(g) && AreTypes(roots, |g|) && m <= n <= |roots|
    ensures GatheredRoots(g, roots[..n], m) == GatheredRoots(g, roots, m)
  {
    if m > 0 { FirstRoots(g, roots, m - 1, n); }
  }

  lemma EntryIffSpelled(g: Graph, root: TypeId, tid: TypeId, path: string)
    requires ValidGraph(g) && root < |g|
    ensures (tid, path) in Gathered(g, root, {}, "") <==> exists w: Walk :: Spells(g, root, w, tid, path)
  {
    RootIsGatheredExactly(g, root);
    var ws := Visit(g, root, {});
    var entries := Entries(g, root, "", ws);
    if (tid, path) in entries {
      var i :| 0 <= i < |entries| && entries[i] == (tid, path);
      assert ws[i] in ws;
      RootEntry(g, root, ws[i]);
      assert Spells(g, root, ws[i], tid, path);
    }
    forall w: Walk | Spells(g, root, w, tid, path) ensures (tid, path) in entries {
      RootEntry(g, root, w);
      var i :| 0 <= i < |ws| && ws[i] == w;
      assert entries[i] == (tid, path);
    }
  }

  lemma {:induction false} RootsEntry(g: Graph, roots: seq<TypeId>, n: nat, tid: TypeId, path: string)
    requires ValidGraph(g) && AreTypes(roots, |g|) && n <= |roots|
    ensures (tid, path) in GatheredRoots(g, roots, n) <==>
            exists k, w: Walk :: 0 <= k < n && Spells(g, roots[k], w, tid, path)
  {
    if n > 0 {
      RootsEntry(g, roots, n - 1, tid, path);
      EntryIffSpelled(g, roots[n - 1], tid, path);
    }
  }

  /** MAIN: after the roots are gathered, Get(tid) lists a path exactly when some simple path from one of
      the roots spells it and ends at tid. */
  lemma GetListsSimplePaths(g: Graph, roots: seq<TypeId>, tid: TypeId, path: string)
    requires ValidGraph(g) && AreTypes(roots, |g|)
    ensures path in PathsOf(GatheredRoots(g, roots, |roots|), tid) <==>
            exists k, w: Walk :: 0 <= k < |roots| && Spells(g, roots[k], w, tid, path)
  {
    RootsEntry(g, roots, |roots|, tid, path);
    PathsOfMembers(GatheredRoots(g, roots, |roots|), tid, path);
  }

  function Elements(s: seq<TypeId>): set<TypeId> {
    set t | t in s
  }

  /** One activation of DoGather: its type, its stacks on entry and the output on entry. */
  datatype Call = Call(g: Graph, tid: TypeId, stack: seq<TypeId>, path: seq<string>, start: seq<Entry>) {
    ghost predicate Valid() {
      ValidGraph(g) && tid < |g| && tid !in stack && Distinct(stack)
    }

    /** The output once the edges `es` were followed. */
    ghost function Progress(es: seq<Edge>): seq<Entry>
      requires Valid() && TargetsBelow(es, |g|)
    {
      start + GatheredVia(g, tid, Elements(stack), JoinPath(path), es)
    }

    lemma ProgressStep(es: seq<Edge>, e: Edge)
      requires Valid() && TargetsBelow(es, |g|) && e.target < |g|
      ensures Progress(es + [e]) ==
              Progress(es) + Gathered(g, e.target, Elements(stack) + {tid}, JoinPath(path) + "/" + e.name)
    {
      assert (es + [e])[..|es|] == es;
    }
  }

  class StaticInformation {
    const reg: Registry
    var output: seq<Entry>
    var currentPath: seq<string>
    var alreadyProcessed: seq<TypeId>
    var aggregates: seq<(TypeId, TypeId)>
    var noTids: seq<string>

    /** The ancestor stack holds no type twice. */
    ghost predicate Valid()
      reads `aggregates, `alreadyProcessed
    {
      ValidTypes() && Distinct(alreadyProcessed)
    }

    ghost predicate ValidTypes()
      reads `aggregates
    {
      reg.Valid() && ValidAggregates(reg, aggregates)
    }

    /** g is the type graph of the registry and the recorded aggregations. */
    ghost predicate IsGraph(g: Graph)
      reads `aggregates
    {
      ValidTypes() && IsGraphOf(g, reg, aggregates)
    }

    constructor (reg: Registry)
      requires reg.Valid()
      ensures Valid() && this.reg == reg
      ensures output == [] && currentPath == [] && alreadyProcessed == [] && aggregates == [] && noTids == []
    {
      this.reg := reg;
      output, currentPath, alreadyProcessed, aggregates, noTids := [], [], [], [], [];
    }

    method RecordAggregationInfo(a: string, b: string)
      requires Valid()
      modifies `aggregates, `noTids
      ensures Valid()
      ensures var i, j := Lookup(reg.types, a), Lookup(reg.types, b);
        if i < |reg.types| && j < |reg.types| then
          aggregates == old(aggregates) + [(i, j)] && noTids == old(noTids)
        else
          aggregates == old(aggregates) && noTids == old(noTids) + [if i == |reg.types| then a else b]
    {
      var aTid := Lookup(reg.types, a);
      if aTid == |reg.types| {
        noTids := noTids + [a];
        return;
      }
      var bTid := Lookup(reg.types, b);
      if bTid == |reg.types| {
        noTids := noTids + [b];
        return;
      }
      aggregates := aggregates + [(aTid, bTid)];
    }

    method HasAlreadyBeenProcessed(tid: TypeId) returns (found: bool)
      ensures found <==> tid in alreadyProcessed
    {
      for i := 0 to |alreadyProcessed|
        invariant tid !in alreadyProcessed[..i]
      {
        if alreadyProcessed[i] == tid { return true; }
      }
      return false;
    }

    method GetCurrentPath() returns (path: string)
      ensures path == JoinPath(currentPath)
    {
      path := "";
      for i := 0 to |currentPath|
        invariant path == JoinPath(currentPath[..i])
      {
        path := path + "/" + currentPath[i];
        assert currentPath[..i + 1][..i] == currentPath[..i];
      }
      assert currentPath[..|currentPath|] == currentPath;
    }

    method RecordOutput(tid: TypeId)
      modifies `output
      ensures output == old(output) + [(tid, JoinPath(currentPath))]
    {
      var path := GetCurrentPath();
      output := output + [(tid, path)];
    }

    method Get(tid: TypeId) returns (paths: seq<string>)
      ensures paths == PathsOf(output, tid) && exists p :: ListsPaths(output, tid, paths, p)
    {
      ghost var p := PathsOfPositions(output, tid);
      paths := [];
      for i := 0 to |output|
        invariant paths == PathsOf(output[..i], tid)
      {
        if output[i].0 == tid { paths := paths + [output[i].1]; }
        assert output[..i + 1][..i] == output[..i];
      }
      assert output[..|output|] == output;
    }

    /** Push one edge and its source, gather below it, pop both. */
    method Follow(tid: TypeId, name: string, target: TypeId, ghost g: Graph, ghost avoid: set<TypeId>)
      requires Valid() && IsGraph(g) && avoid == Elements(alreadyProcessed)
      requires tid < |g| && target < |g| && tid !in avoid
      modifies `output, `currentPath, `alreadyProcessed
      ensures Valid() && currentPath == old(currentPath) && alreadyProcessed == old(alreadyProcessed)
      ensures output == old(output) + Gathered(g, target, avoid + {tid}, JoinPath(currentPath) + "/" + name)
      decreases Unvisited(g, avoid), 0
    {
      currentPath := currentPath + [name];
      alreadyProcessed := alreadyProcessed + [tid];
      assert Elements(alreadyProcessed) == avoid + {tid};
      assert tid in Unvisited(g, avoid) && tid !in Unvisited(g, avoid + {tid});
      DoGather(target, g, avoid + {tid});
      alreadyProcessed := alreadyProcessed[..|alreadyProcessed| - 1];
      currentPath := currentPath[..|currentPath| - 1];
    }

    method DoGather(tid: TypeId, ghost g: Graph, ghost avoid: set<TypeId>)
      requires Valid() && IsGraph(g) && avoid == Elements(alreadyProcessed) && tid < |g|
      modifies `output, `currentPath, `alreadyProcessed
      ensures Valid() && currentPath == old(currentPath) && alreadyProcessed == old(alreadyProcessed)
      ensures output == old(output) + Gathered(g, tid, avoid, JoinPath(currentPath))
      decreases Unvisited(g, avoid), 4
    {
      var processed := HasAlreadyBeenProcessed(tid);
      if processed { return; }
      ghost var call := Call(g, tid, alreadyProcessed, currentPath, output);
      RecordOutput(tid);
      ghost var own := GatherAttributes(tid, call);
      ghost var most := GatherChildren(tid, call, own);
      GatherAggregates(tid, call, most);
    }

    /** The stacks are those of the call, and `output` is what following the edges `es` leads to. */
    ghost predicate At(call: Call, es: seq<Edge>)
      reads `output, `currentPath, `alreadyProcessed
    {
      call.Valid() && TargetsBelow(es, |call.g|) && output == call.Progress(es) &&
      alreadyProcessed == call.stack && currentPath == call.path
    }

    /** Following one more edge of the call extends its progress by that edge. */
    method FollowNext(tid: TypeId, name: string, target: TypeId, ghost call: Call, ghost es: seq<Edge>)
      requires At(call, es) && IsGraph(call.g) && tid == call.tid && target < |call.g|
      modifies `output, `currentPath, `alreadyProcessed
      ensures At(call, es + [Edge(name, target)])
      decreases Unvisited(call.g, Elements(call.stack)), 1
    {
      Follow(tid, name, target, call.g, Elements(call.stack));
      call.ProgressStep(es, Edge(name, target));
    }

    method GatherAttributes(tid: TypeId, ghost call: Call) returns (ghost es: seq<Edge>)
      requires At(call, []) && IsGraph(call.g) && tid == call.tid
      modifies `output, `currentPath, `alreadyProcessed
      ensures At(call, es) && es == AttributeEdges(reg, reg.types[tid].attributes, |reg.types[tid].attributes|)
      decreases Unvisited(call.g, Elements(call.stack)), 2
    {
      var attributes := reg.types[tid].attributes;
      es := [];
      for i := 0 to |attributes|
        invariant es == AttributeEdges(reg, attributes, i) && At(call, es)
      {
        match attributes[i].checker {
          case Pointer(pointee) =>
            if pointee == reg.objectType { continue; }
            FollowNext(tid, attributes[i].name, pointee, call, es);
            es := es + [Edge(attributes[i].name, pointee)];
          case Container(item) =>
            FollowNext(tid, attributes[i].name + "/[i]", item, call, es);
            es := es + [Edge(attributes[i].name + "/[i]", item)];
          case Plain =>
        }
      }
    }

    method GatherChildren(tid: TypeId, ghost call: Call, ghost before: seq<Edge>) returns (ghost es: seq<Edge>)
      requires At(call, before) && IsGraph(call.g) && tid == call.tid
      modifies `output, `currentPath, `alreadyProcessed
      ensures At(call, es) && es == before + ChildEdges(reg, tid, |reg.types|)
      decreases Unvisited(call.g, Elements(call.stack)), 2
    {
      es := before;
      for j := 0 to |reg.types|
        invariant es == before + ChildEdges(reg, tid, j) && At(call, es)
      {
        if tid in reg.types[j].ancestors {
          FollowNext(tid, "$" + reg.types[j].name, j, call, es);
          es := es + [Edge("$" + reg.types[j].name, j)];
        }
      }
    }

    method FollowAggregate(tid: TypeId, i: nat, ghost call: Call, ghost before: seq<Edge>)
      requires IsGraph(call.g) && tid == call.tid && i < |aggregates|
      requires At(call, before + AggregateEdges(reg, tid, aggregates, i))
      modifies `output, `currentPath, `alreadyProcessed
      ensures At(call, before + AggregateEdges(reg, tid, aggregates, i + 1))
      decreases Unvisited(call.g, Elements(call.stack)), 2
    {
      var item := aggregates[i];
      ghost var first := AggregateEdges(reg, tid, aggregates, i);
      Reassociate(before, first, AggregateEdge(reg, tid, item));
      if item.0 == tid || item.1 == tid {
        var other := item.0;
        if item.0 == tid { other := item.1; }
        if item.1 == tid { other := item.0; }
        FollowNext(tid, "$" + reg.types[other].name, other, call, before + first);
      } else {
        assert AggregateEdges(reg, tid, aggregates, i + 1) == first;
      }
    }

    method GatherAggregates(tid: TypeId, ghost call: Call, ghost before: seq<Edge>)
      requires At(call, before) && IsGraph(call.g) && tid == call.tid
      modifies `output, `currentPath, `alreadyProcessed
      ensures At(call, before + AggregateEdges(reg, tid, aggregates, |aggregates|))
      decreases Unvisited(call.g, Elements(call.stack)), 3
    {
      assert before + [] == before;
      for i := 0 to |aggregates|
        invariant At(call, before + AggregateEdges(reg, tid, aggregates, i))
      {
        FollowAggregate(tid, i, call, before);
      }
    }

    /** The clean-up after DoGather works on a copy of the output, so it removes nothing. */
    method Gather(tid: TypeId)
      requires Valid() && tid < |reg.types| && currentPath == [] && alreadyProcessed == []
      modifies `output, `currentPath, `alreadyProcessed
      ensures Valid() && currentPath == [] && alreadyProcessed == []
      ensures output == old(output) + Gathered(GraphOf(reg, aggregates), tid, {}, "")
    {
      assert Elements(alreadyProcessed) == {};
      DoGather(tid, GraphOf(reg, aggregates), {});
    }

    /** The root namespace objects are gathered one after the other into the same output. */
    method GatherRoots(roots: seq<TypeId>)
      requires Valid() && AreTypes(roots, |reg.types|) && currentPath == [] && alreadyProcessed == []
      modifies `output, `currentPath, `alreadyProcessed
      ensures Valid() && currentPath == [] && alreadyProcessed == []
      ensures output == old(output) + GatheredRoots(GraphOf(reg, aggregates), roots, |roots|)
    {
      assert output == old(output) + [];
      for i := 0 to |roots|
        invariant Valid() && currentPath == [] && alreadyProcessed == []
        invariant output == old(output) + GatheredRoots(GraphOf(reg, aggregates), roots, i)
      {
        ghost var g, first := GraphOf(reg, aggregates), GatheredRoots(GraphOf(reg, aggregates), roots, i);
        Reassociate(old(output), first, Gathered(g, roots[i], {}, ""));
        Gather(roots[i]);
      }
    }
  }
}
