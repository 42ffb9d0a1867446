/** When the gathered configuration paths hold an entry twice. The clean-up after the search works on
    a copy (utils/print-introspected-doxygen.cc, Uniquefy), so repetitions stay. */
module ConfigRepeats {
  import opened ConfigPaths

  // ---------------------------------------------------------------------------
  // Walks and their last edge
  // ---------------------------------------------------------------------------

  lemma {:induction false} WalkSnoc(g: Graph, t: TypeId, w: Walk, k: nat)
    requires ValidGraph(g) && t < |g| && IsWalk(g, t, w) && EndOf(g, t, w) < |g| && k < |g[EndOf(g, t, w)]|
    ensures var e := g[EndOf(g, t, w)][k];
      IsWalk(g, t, w + [k]) && TypesAlong(g, t, w + [k]) == TypesAlong(g, t, w) + [e.target] &&
      EndOf(g, t, w + [k]) == e.target && PathString(g, t, w + [k]) == PathString(g, t, w) + "/" + e.name
    decreases |w|
  {
    if w == [] {
      assert [k][1..] == [] && w + [k] == [k];
      var name := g[t][k].name;
      assert "/" + name + "" == "" + "/" + name;
    } else {
      var u := g[t][w[0]].target;
      WalkSnoc(g, u, w[1..], k);
      assert (w + [k])[1..] == w[1..] + [k];
      var first, rest, last := "/" + g[t][w[0]].name, PathString(g, u, w[1..]), g[EndOf(g, t, w)][k].name;
      assert first + (rest + "/" + last) == (first + rest) + "/" + last;
    }
  }

  lemma {:induction false} EndInGraph(g: Graph, t: TypeId, w: Walk)
    requires ValidGraph(g) && t < |g| && IsWalk(g, t, w)
    ensures EndOf(g, t, w) < |g|
    decreases |w|
  {
    if w != [] { EndInGraph(g, g[t][w[0]].target, w[1..]); }
  }

  /** A walk cut behind its first |w| edges, with w its beginning. */
  lemma {:induction false} WalkPrefix(g: Graph, t: TypeId, v: Walk, n: nat)
    requires ValidGraph(g) && t < |g| && IsWalk(g, t, v) && n <= |v|
    ensures IsWalk(g, t, v[..n]) && |TypesAlong(g, t, v)| == |v| + 1
    ensures TypesAlong(g, t, v[..n]) == TypesAlong(g, t, v)[..n + 1]
    decreases |v|
  {
    if n > 0 {
      WalkPrefix(g, g[t][v[0]].target, v[1..], n - 1);
      assert v[..n][1..] == v[1..][..n - 1];
    } else if v != [] {
      WalkPrefix(g, g[t][v[0]].target, v[1..], 0);
    }
  }

  // ---------------------------------------------------------------------------
  // Equal edges repeat entries
  // ---------------------------------------------------------------------------

  /** A simple path w from the root ends at a type with two equal edges to a type not on w. */
  predicate EqualEdgesAfter(g: Graph, root: TypeId, w: Walk, i: nat, j: nat)
    requires ValidGraph(g) && root < |g|
  {
    IsWalk(g, root, w) && Distinct(TypesAlong(g, root, w)) && EndOf(g, root, w) < |g| &&
    var es := g[EndOf(g, root, w)];
    i < j < |es| && es[i] == es[j] && es[i].target !in TypesAlong(g, root, w)
  }

  lemma EntryAt(g: Graph, root: TypeId, w: Walk) returns (p: nat)
    requires ValidGraph(g) && root < |g| && IsWalk(g, root, w) && Distinct(TypesAlong(g, root, w))
    ensures var ws, entries := Visit(g, root, {}), Gathered(g, root, {}, "");
      p < |ws| == |entries| && ws[p] == w && entries[p] == (EndOf(g, root, w), PathString(g, root, w))
  {
    RootIsGatheredExactly(g, root);
    assert w in Visit(g, root, {});
    p :| 0 <= p < |Visit(g, root, {})| && Visit(g, root, {})[p] == w;
    RootEntry(g, root, w);
  }

  /** Following either of the equal edges records the same entry. */
  lemma EqualEdgesRepeatEntries(g: Graph, root: TypeId, w: Walk, i: nat, j: nat) returns (p: nat, q: nat)
    requires ValidGraph(g) && root < |g| && EqualEdgesAfter(g, root, w, i, j)
    ensures var entries, e := Gathered(g, root, {}, ""), g[EndOf(g, root, w)][i];
      p < q < |entries| && entries[p] == entries[q] == (e.target, PathString(g, root, w) + "/" + e.name)
  {
    WalkSnoc(g, root, w, i);
    WalkSnoc(g, root, w, j);
    p := EntryAt(g, root, w + [i]);
    q := EntryAt(g, root, w + [j]);
    assert (w + [i])[|w|] != (w + [j])[|w|];
    assert p != q;
    if q < p { p, q := q, p; }
  }

  // ---------------------------------------------------------------------------
  // Nothing else does, when names tell edges apart
  // ---------------------------------------------------------------------------

  /** The name of an edge determines it among the edges of its type, and no name followed by a slash
      begins another name of the same type. */
  predicate NamesTellEdges(g: Graph) {
    forall t, i, j :: 0 <= t < |g| && 0 <= i < |g[t]| && 0 <= j < |g[t]| ==>
      (g[t][i].name == g[t][j].name ==> g[t][i] == g[t][j]) && !(g[t][i].name + "/" <= g[t][j].name)
  }

  /** The shorter of two first names, followed by its slash, begins the longer one. */
  lemma ShorterBegins(a: string, b: string, ra: string, rb: string)
    requires "/" + a + ra == "/" + b + rb && |a| < |b| && (ra == "" || ra[0] == '/')
    ensures a + "/" <= b
  {
    var s := "/" + a + ra;
    assert s[1..|a| + 1] == a && s[|a| + 1..] == ra;
    assert s[1..|b| + 1] == b && s[|b| + 1..] == rb;
    assert b[..|a|] == a;
    assert b[|a|] == s[|a| + 1] == ra[0];
    assert b[..|a| + 1] == a + "/";
  }

  /** Two paths whose first names do not begin each other are only equal name by name. */
  lemma FirstNamesEqual(a: string, b: string, ra: string, rb: string)
    requires "/" + a + ra == "/" + b + rb
    requires (ra == "" || ra[0] == '/') && (rb == "" || rb[0] == '/')
    requires !(a + "/" <= b) && !(b + "/" <= a)
    ensures a == b && ra == rb
  {
    if |a| < |b| {
      ShorterBegins(a, b, ra, rb);
    } else if |b| < |a| {
      ShorterBegins(b, a, rb, ra);
    } else {
      var s := "/" + a + ra;
      assert s[1..|a| + 1] == a && s[|a| + 1..] == ra;
      assert s[1..|b| + 1] == b && s[|b| + 1..] == rb;
    }
  }

  lemma PathStarts(g: Graph, t: TypeId, w: Walk)
    requires ValidGraph(g) && t < |g| && IsWalk(g, t, w)
    ensures w == [] <==> PathString(g, t, w) == ""
    ensures w != [] ==> PathString(g, t, w)[0] == '/'
  {
  }

  /** Different walks that spell the same path part at two equal edges. */
  lemma {:induction false} EqualPathsPart(g: Graph, t: TypeId, v: Walk, w: Walk) returns (n: nat)
    requires ValidGraph(g) && NamesTellEdges(g) && t < |g| && IsWalk(g, t, v) && IsWalk(g, t, w)
    requires v != w && PathString(g, t, v) == PathString(g, t, w)
    ensures n < |v| && n < |w| && v[n] != w[n] && IsWalk(g, t, v[..n]) && EndOf(g, t, v[..n]) < |g|
    ensures var es := g[EndOf(g, t, v[..n])];
      v[n] < |es| && w[n] < |es| && es[v[n]] == es[w[n]]
    decreases |v|
  {
    PathStarts(g, t, v);
    PathStarts(g, t, w);
    var e, f := g[t][v[0]], g[t][w[0]];
    PathStarts(g, e.target, v[1..]);
    PathStarts(g, f.target, w[1..]);
    FirstNamesEqual(e.name, f.name, PathString(g, e.target, v[1..]), PathString(g, f.target, w[1..]));
    assert e == f;
    if v[0] != w[0] {
      n := 0;
    } else {
      assert v == [v[0]] + v[1..] && w == [w[0]] + w[1..];
      var m := EqualPathsPart(g, e.target, v[1..], w[1..]);
      n := m + 1;
      assert v[..n][1..] == v[1..][..m];
    }
  }

  /** On a simple path the type behind an edge is not among those before it. */
  lemma NextTypeIsNew(g: Graph, t: TypeId, v: Walk, n: nat)
    requires ValidGraph(g) && t < |g| && IsWalk(g, t, v) && Distinct(TypesAlong(g, t, v)) && n < |v|
    ensures IsWalk(g, t, v[..n]) && EndOf(g, t, v[..n]) < |g| && v[n] < |g[EndOf(g, t, v[..n])]|
    ensures Distinct(TypesAlong(g, t, v[..n]))
    ensures g[EndOf(g, t, v[..n])][v[n]].target !in TypesAlong(g, t, v[..n])
  {
    WalkPrefix(g, t, v, n);
    WalkPrefix(g, t, v, n + 1);
    EndInGraph(g, t, v[..n]);
    EdgeAt(g, t, v, n);
    WalkSnoc(g, t, v[..n], v[n]);
    assert v[..n] + [v[n]] == v[..n + 1];
    LastIsNew(TypesAlong(g, t, v), TypesAlong(g, t, v[..n]), g[EndOf(g, t, v[..n])][v[n]].target, n + 1);
  }

  lemma LastIsNew(s: seq<TypeId>, before: seq<TypeId>, x: TypeId, n: nat)
    requires Distinct(s) && n < |s| && before == s[..n] && before + [x] == s[..n + 1]
    ensures x !in before && Distinct(before)
  {
    assert (before + [x])[n] == x == s[n];
  }

  lemma {:induction false} EdgeAt(g: Graph, t: TypeId, v: Walk, n: nat)
    requires ValidGraph(g) && t < |g| && IsWalk(g, t, v) && n < |v|
    requires IsWalk(g, t, v[..n]) && EndOf(g, t, v[..n]) < |g|
    ensures v[n] < |g[EndOf(g, t, v[..n])]|
    decreases n
  {
    if n > 0 {
      assert v[..n][1..] == v[1..][..n - 1];
      EdgeAt(g, g[t][v[0]].target, v[1..], n - 1);
    }
  }

  /** Two entries that are equal come from walks that part at two equal edges. */
  lemma RepeatsComeFromEqualEdges(g: Graph, root: TypeId, p: nat, q: nat) returns (w: Walk, i: nat, j: nat)
    requires ValidGraph(g) && NamesTellEdges(g) && root < |g| && p < q < |Gathered(g, root, {}, "")|
    requires Gathered(g, root, {}, "")[p] == Gathered(g, root, {}, "")[q]
    ensures EqualEdgesAfter(g, root, w, i, j)
  {
    RootIsGatheredExactly(g, root);
    var ws := Visit(g, root, {});
    var v, u := ws[p], ws[q];
    assert v in ws && u in ws;
    RootEntry(g, root, v);
    RootEntry(g, root, u);
    var n := EqualPathsPart(g, root, v, u);
    NextTypeIsNew(g, root, v, n);
    w := v[..n];
    i, j := if v[n] < u[n] then v[n] else u[n], if v[n] < u[n] then u[n] else v[n];
  }

  /** MAIN: the recorded entries are free of duplicates exactly when no simple path from the root ends
      at a type with two equal edges to a type that the path has not met. */
  lemma EntriesDistinctIff(g: Graph, root: TypeId)
    requires ValidGraph(g) && NamesTellEdges(g) && root < |g|
    ensures Distinct(Gathered(g, root, {}, "")) <==> !exists w: Walk, i, j :: EqualEdgesAfter(g, root, w, i, j)
  {
    if w: Walk, i: nat, j: nat :| EqualEdgesAfter(g, root, w, i, j) {
      var p, q := EqualEdgesRepeatEntries(g, root, w, i, j);
    }
    var entries := Gathered(g, root, {}, "");
    if p, q :| 0 <= p < q < |entries| && entries[p] == entries[q] {
      var w, i, j := RepeatsComeFromEqualEdges(g, root, p, q);
    }
  }

  // ---------------------------------------------------------------------------
  // In terms of the registry
  // ---------------------------------------------------------------------------

  /** Type names are unique, attribute names are unique within their type, no name holds a slash and
      no attribute name begins with the dollar sign that marks a type name. */
  predicate ProperNames(reg: Registry) {
    (forall t :: 0 <= t < |reg.types| ==> '/' !in reg.types[t].name && ProperAttributes(reg.types[t].attributes)) &&
    (forall t, u :: 0 <= t < u < |reg.types| ==> reg.types[t].name != reg.types[u].name)
  }

  predicate StartsWithDollar(name: string) {
    name != "" && name[0] == '$'
  }

  predicate ProperAttributes(attributes: seq<Attribute>) {
    (forall i :: 0 <= i < |attributes| ==> '/' !in attributes[i].name && !StartsWithDollar(attributes[i].name)) &&
    (forall i, j :: 0 <= i < j < |attributes| ==> attributes[i].name != attributes[j].name)
  }

  /** A name up to its first slash. */
  function Head(name: string): string {
    if name == "" || name[0] == '/' then "" else [name[0]] + Head(name[1..])
  }

  lemma {:induction false} HeadOf(a: string, rest: string)
    requires '/' !in a && (rest == "" || rest[0] == '/')
    ensures Head(a + rest) == a
  {
    if a == "" {
      assert a + rest == rest;
    } else {
      HeadOf(a[1..], rest);
      assert (a + rest)[1..] == a[1..] + rest;
    }
  }

  lemma {:induction false} HeadOfPrefix(a: string, b: string)
    requires a + "/" <= b
    ensures Head(a) == Head(b)
  {
    if a == "" {
      assert b[0] == (a + "/")[0];
    } else {
      assert b[0] == (a + "/")[0] == a[0];
      assert (a + "/")[1..] == a[1..] + "/" && b[1..][..|a|] == b[..|a| + 1][1..];
      HeadOfPrefix(a[1..], b[1..]);
    }
  }

  /** The edge to u that a child or an aggregated type gives. */
  function TypeEdge(reg: Registry, u: TypeId): Edge
    requires u < |reg.types|
  {
    Edge("$" + reg.types[u].name, u)
  }

  predicate IsTypeEdge(reg: Registry, e: Edge) {
    e.target < |reg.types| && e == TypeEdge(reg, e.target)
  }

  /** e leaves t because of its i-th attribute, whose name is the head of e's name. */
  predicate ByAttribute(reg: Registry, t: TypeId, e: Edge, i: nat)
    requires t < |reg.types|
  {
    i < |reg.types[t].attributes| && FromAttribute(reg, reg.types[t].attributes[i], e) &&
    Head(e.name) == reg.types[t].attributes[i].name
  }

  /** e leads to a type and carries that type's name. */
  predicate ByType(reg: Registry, e: Edge) {
    IsTypeEdge(reg, e) && Head(e.name) == e.name
  }

  lemma EdgeKinds(reg: Registry, aggregates: seq<(TypeId, TypeId)>, t: TypeId, e: Edge)
    requires ProperNames(reg) && ValidAggregates(reg, aggregates) && t < |reg.types|
    requires e in EdgesOf(reg, aggregates, t)
    ensures ByType(reg, e) || exists i :: ByAttribute(reg, t, e, i)
  {
    EdgeMeaning(reg, aggregates, t, e);
    var attributes := reg.types[t].attributes;
    if i :| 0 <= i < |attributes| && FromAttribute(reg, attributes[i], e) {
      HeadOf(attributes[i].name, "/[i]");
      HeadOf(attributes[i].name, "");
      assert attributes[i].name + "" == attributes[i].name;
      assert ByAttribute(reg, t, e, i);
    } else {
      HeadOf(e.name, "");
      assert e.name + "" == e.name;
    }
  }

  /** The head of an edge's name tells the edge. */
  lemma HeadsTellEdges(reg: Registry, aggregates: seq<(TypeId, TypeId)>, t: TypeId, e: Edge, f: Edge)
    requires ProperNames(reg) && ValidAggregates(reg, aggregates) && t < |reg.types|
    requires e in EdgesOf(reg, aggregates, t) && f in EdgesOf(reg, aggregates, t) && Head(e.name) == Head(f.name)
    ensures e == f
  {
    EdgeKinds(reg, aggregates, t, e);
    EdgeKinds(reg, aggregates, t, f);
    assert ByType(reg, e) ==> StartsWithDollar(Head(e.name));
    assert ByType(reg, f) ==> StartsWithDollar(Head(f.name));
    if ByType(reg, e) && ByType(reg, f) {
      assert e.name[1..] == reg.types[e.target].name && f.name[1..] == reg.types[f.target].name;
    }
  }

  /** MAIN: with proper names every edge of the type graph is told by its name. */
  lemma ProperNamesTellEdges(reg: Registry, aggregates: seq<(TypeId, TypeId)>, g: Graph)
    requires ProperNames(reg) && ValidAggregates(reg, aggregates) && IsGraphOf(g, reg, aggregates)
    ensures NamesTellEdges(g)
  {
    forall t, i, j | 0 <= t < |g| && 0 <= i < |g[t]| && 0 <= j < |g[t]|
      ensures (g[t][i].name == g[t][j].name ==> g[t][i] == g[t][j]) && !(g[t][i].name + "/" <= g[t][j].name)
    {
      var e, f := g[t][i], g[t][j];
      assert e in EdgesOf(reg, aggregates, t) && f in EdgesOf(reg, aggregates, t);
      if e.name + "/" <= f.name { HeadOfPrefix(e.name, f.name); }
      if Head(e.name) == Head(f.name) { HeadsTellEdges(reg, aggregates, t, e, f); }
    }
  }

  /** How many of the first n aggregations join t and u, in either order. */
  function Joins(aggregates: seq<(TypeId, TypeId)>, t: TypeId, u: TypeId, n: nat): nat
    requires n <= |aggregates|
  {
    if n == 0 then 0
    else Joins(aggregates, t, u, n - 1) + if aggregates[n - 1] == (t, u) || aggregates[n - 1] == (u, t) then 1 else 0
  }

  /** How often e occurs among the first n edges. */
  function CopiesAmong(es: seq<Edge>, e: Edge, n: nat): nat
    requires n <= |es|
  {
    if n == 0 then 0 else CopiesAmong(es, e, n - 1) + if es[n - 1] == e then 1 else 0
  }

  function Copies(es: seq<Edge>, e: Edge): nat {
    CopiesAmong(es, e, |es|)
  }

  lemma {:induction false} CopiesFirst(a: seq<Edge>, b: seq<Edge>, e: Edge, n: nat)
    requires n <= |a|
    ensures CopiesAmong(a + b, e, n) == CopiesAmong(a, e, n)
  {
    if n > 0 { CopiesFirst(a, b, e, n - 1); }
  }

  lemma {:induction false} CopiesSplitAt(a: seq<Edge>, b: seq<Edge>, e: Edge, n: nat)
    requires n <= |b|
    ensures CopiesAmong(a + b, e, |a| + n) == Copies(a, e) + CopiesAmong(b, e, n)
  {
    if n > 0 {
      CopiesSplitAt(a, b, e, n - 1);
    } else {
      CopiesFirst(a, b, e, |a|);
    }
  }

  lemma CopiesSplit(a: seq<Edge>, b: seq<Edge>, e: Edge)
    ensures Copies(a + b, e) == Copies(a, e) + Copies(b, e)
  {
    CopiesSplitAt(a, b, e, |b|);
  }

  lemma {:induction false} CopiesPositive(es: seq<Edge>, e: Edge, n: nat)
    requires n <= |es|
    ensures CopiesAmong(es, e, n) > 0 <==> exists i :: 0 <= i < n && es[i] == e
  {
    if n > 0 { CopiesPositive(es, e, n - 1); }
  }

  lemma NoCopies(es: seq<Edge>, e: Edge)
    ensures Copies(es, e) == 0 <==> e !in es
  {
    CopiesPositive(es, e, |es|);
  }

  lemma {:induction false} TwoPlaces(es: seq<Edge>, e: Edge, n: nat)
    requires n <= |es|
    ensures CopiesAmong(es, e, n) >= 2 <==> exists i, j :: 0 <= i < j < n && es[i] == e == es[j]
  {
    if n > 0 {
      TwoPlaces(es, e, n - 1);
      CopiesPositive(es, e, n - 1);
    }
  }

  lemma CopiesSnoc(es: seq<Edge>, last: seq<Edge>, e: Edge)
    requires |last| <= 1
    ensures Copies(es + last, e) == Copies(es, e) + if last == [e] then 1 else 0
  {
    CopiesSplit(es, last, e);
    if last != [] { assert last == [last[0]] && CopiesAmong(last, e, 0) == 0; }
  }

  lemma AggregateStep(reg: Registry, t: TypeId, aggregates: seq<(TypeId, TypeId)>, u: TypeId, n: nat)
    requires ValidAggregates(reg, aggregates) && n < |aggregates| && u < |reg.types|
    ensures Copies(AggregateEdges(reg, t, aggregates, n + 1), TypeEdge(reg, u)) ==
            Copies(AggregateEdges(reg, t, aggregates, n), TypeEdge(reg, u)) +
            if aggregates[n] == (t, u) || aggregates[n] == (u, t) then 1 else 0
  {
    CopiesSnoc(AggregateEdges(reg, t, aggregates, n), AggregateEdge(reg, t, aggregates[n]), TypeEdge(reg, u));
  }

  lemma {:induction false} AggregateCount(
    reg: Registry, t: TypeId, aggregates: seq<(TypeId, TypeId)>, u: TypeId, n: nat)
    requires ValidAggregates(reg, aggregates) && n <= |aggregates| && u < |reg.types|
    ensures Copies(AggregateEdges(reg, t, aggregates, n), TypeEdge(reg, u)) == Joins(aggregates, t, u, n)
  {
    if n > 0 {
      AggregateCount(reg, t, aggregates, u, n - 1);
      AggregateStep(reg, t, aggregates, u, n - 1);
    }
  }

  lemma ChildStep(reg: Registry, t: TypeId, u: TypeId, n: nat)
    requires n < |reg.types| && u < |reg.types|
    ensures Copies(ChildEdges(reg, t, n + 1), TypeEdge(reg, u)) ==
            Copies(ChildEdges(reg, t, n), TypeEdge(reg, u)) +
            if u == n && t in reg.types[n].ancestors then 1 else 0
  {
    var last := if t in reg.types[n].ancestors then [TypeEdge(reg, n)] else [];
    CopiesSnoc(ChildEdges(reg, t, n), last, TypeEdge(reg, u));
  }

  lemma {:induction false} ChildCount(reg: Registry, t: TypeId, u: TypeId, n: nat)
    requires n <= |reg.types| && u < |reg.types|
    ensures Copies(ChildEdges(reg, t, n), TypeEdge(reg, u)) ==
            if u < n && t in reg.types[u].ancestors then 1 else 0
  {
    if n > 0 {
      ChildCount(reg, t, u, n - 1);
      ChildStep(reg, t, u, n - 1);
    }
  }

  lemma SameEdgeSameName(reg: Registry, a: Attribute, b: Attribute, e: Edge)
    requires '/' !in a.name && '/' !in b.name && FromAttribute(reg, a, e) && FromAttribute(reg, b, e)
    ensures a.name == b.name
  {
    HeadOf(a.name, "");
    HeadOf(a.name, "/[i]");
    HeadOf(b.name, "");
    HeadOf(b.name, "/[i]");
    assert a.name + "" == a.name && b.name + "" == b.name;
  }

  /** How many of the first n attributes give the edge e. */
  function Givers(reg: Registry, attributes: seq<Attribute>, e: Edge, n: nat): nat
    requires n <= |attributes|
  {
    if n == 0 then 0
    else Givers(reg, attributes, e, n - 1) + if FromAttribute(reg, attributes[n - 1], e) then 1 else 0
  }

  lemma AttributeStep(reg: Registry, attributes: seq<Attribute>, e: Edge, n: nat)
    requires n < |attributes|
    ensures Copies(AttributeEdges(reg, attributes, n + 1), e) ==
            Copies(AttributeEdges(reg, attributes, n), e) + if FromAttribute(reg, attributes[n], e) then 1 else 0
  {
    var last := AttributeEdge(reg, attributes[n]);
    assert last == [e] <==> FromAttribute(reg, attributes[n], e);
    CopiesSnoc(AttributeEdges(reg, attributes, n), last, e);
  }

  lemma {:induction false} CopiesAreGivers(reg: Registry, attributes: seq<Attribute>, e: Edge, n: nat)
    requires n <= |attributes|
    ensures Copies(AttributeEdges(reg, attributes, n), e) == Givers(reg, attributes, e, n)
  {
    if n > 0 {
      CopiesAreGivers(reg, attributes, e, n - 1);
      AttributeStep(reg, attributes, e, n - 1);
    }
  }

  lemma {:induction false} NoGiverBefore(reg: Registry, attributes: seq<Attribute>, e: Edge, m: nat, n: nat)
    requires ProperAttributes(attributes) && m <= n < |attributes| && FromAttribute(reg, attributes[n], e)
    ensures Givers(reg, attributes, e, m) == 0
  {
    if m > 0 {
      NoGiverBefore(reg, attributes, e, m - 1, n);
      if FromAttribute(reg, attributes[m - 1], e) {
        SameEdgeSameName(reg, attributes[m - 1], attributes[n], e);
      }
    }
  }

  /** No two attributes give the same edge. */
  lemma {:induction false} OneGiver(reg: Registry, attributes: seq<Attribute>, e: Edge, n: nat)
    requires ProperAttributes(attributes) && n <= |attributes|
    ensures Givers(reg, attributes, e, n) <= 1
  {
    if n > 0 {
      OneGiver(reg, attributes, e, n - 1);
      if FromAttribute(reg, attributes[n - 1], e) { NoGiverBefore(reg, attributes, e, n - 1, n - 1); }
    }
  }

  /** u follows t more than once: as a child and by an aggregation, or by two aggregations. */
  predicate FollowsTwice(reg: Registry, aggregates: seq<(TypeId, TypeId)>, t: TypeId, u: TypeId)
    requires u < |reg.types|
  {
    (if t in reg.types[u].ancestors then 1 else 0) + Joins(aggregates, t, u, |aggregates|) >= 2
  }

  lemma EdgesOfCount(reg: Registry, aggregates: seq<(TypeId, TypeId)>, t: TypeId, e: Edge)
    requires t < |reg.types| && ValidAggregates(reg, aggregates)
    ensures Copies(EdgesOf(reg, aggregates, t), e) ==
            Copies(AttributeEdges(reg, reg.types[t].attributes, |reg.types[t].attributes|), e) +
            Copies(ChildEdges(reg, t, |reg.types|), e) +
            Copies(AggregateEdges(reg, t, aggregates, |aggregates|), e)
  {
    var byAttribute := AttributeEdges(reg, reg.types[t].attributes, |reg.types[t].attributes|);
    var byChild := ChildEdges(reg, t, |reg.types|);
    CopiesSplit(byAttribute + byChild, AggregateEdges(reg, t, aggregates, |aggregates|), e);
    CopiesSplit(byAttribute, byChild, e);
  }

  lemma DollarNames(reg: Registry, a: Attribute, e: Edge)
    requires FromAttribute(reg, a, e) && StartsWithDollar(e.name)
    ensures StartsWithDollar(a.name)
  {
    assert (a.name + "/[i]")[0] == if a.name == "" then '/' else a.name[0];
  }

  /** Attributes give no edge to a type by name. */
  lemma AttributesGiveNoTypeEdge(reg: Registry, attributes: seq<Attribute>, e: Edge)
    requires ProperAttributes(attributes) && IsTypeEdge(reg, e)
    ensures Copies(AttributeEdges(reg, attributes, |attributes|), e) == 0
  {
    forall i | 0 <= i < |attributes|
      ensures FromAttribute(reg, attributes[i], e) ==> StartsWithDollar(attributes[i].name)
    {
      if FromAttribute(reg, attributes[i], e) { DollarNames(reg, attributes[i], e); }
    }
    AttributeEdgeMeaning(reg, attributes, |attributes|, e);
    NoCopies(AttributeEdges(reg, attributes, |attributes|), e);
  }

  /** Children and aggregations give no other edge. */
  lemma TypesGiveTypeEdges(reg: Registry, aggregates: seq<(TypeId, TypeId)>, t: TypeId, e: Edge)
    requires ValidAggregates(reg, aggregates) && !IsTypeEdge(reg, e)
    ensures Copies(ChildEdges(reg, t, |reg.types|), e) == 0
    ensures Copies(AggregateEdges(reg, t, aggregates, |aggregates|), e) == 0
  {
    ChildEdgeMeaning(reg, t, |reg.types|, e);
    AggregateEdgeMeaning(reg, t, aggregates, |aggregates|, e);
    NoCopies(ChildEdges(reg, t, |reg.types|), e);
    NoCopies(AggregateEdges(reg, t, aggregates, |aggregates|), e);
  }

  /** Which edges of a type are there twice. */
  lemma EqualEdgesMeaning(reg: Registry, aggregates: seq<(TypeId, TypeId)>, t: TypeId, e: Edge)
    requires ProperNames(reg) && ValidAggregates(reg, aggregates) && t < |reg.types|
    ensures var es := EdgesOf(reg, aggregates, t);
      (exists i, j :: 0 <= i < j < |es| && es[i] == e == es[j]) <==>
      IsTypeEdge(reg, e) && FollowsTwice(reg, aggregates, t, e.target)
  {
    TwoPlaces(EdgesOf(reg, aggregates, t), e, |EdgesOf(reg, aggregates, t)|);
    EdgesOfCount(reg, aggregates, t, e);
    if IsTypeEdge(reg, e) {
      AttributesGiveNoTypeEdge(reg, reg.types[t].attributes, e);
      ChildCount(reg, t, e.target, |reg.types|);
      AggregateCount(reg, t, aggregates, e.target, |aggregates|);
    } else {
      OneGiver(reg, reg.types[t].attributes, e, |reg.types[t].attributes|);
      CopiesAreGivers(reg, reg.types[t].attributes, e, |reg.types[t].attributes|);
      TypesGiveTypeEdges(reg, aggregates, t, e);
    }
  }

  /** The simple path w from the root can be continued to u in two ways that spell the same. */
  predicate ContinuesTwice(
    g: Graph, reg: Registry, aggregates: seq<(TypeId, TypeId)>, root: TypeId, w: Walk, u: TypeId)
    requires ValidGraph(g) && |g| == |reg.types| && root < |g|
  {
    IsWalk(g, root, w) && Distinct(TypesAlong(g, root, w)) && u < |reg.types| && u !in TypesAlong(g, root, w) &&
    FollowsTwice(reg, aggregates, EndOf(g, root, w), u)
  }

  lemma TwiceGivesEqualEdges(
    g: Graph, reg: Registry, aggregates: seq<(TypeId, TypeId)>, root: TypeId, w: Walk, u: TypeId)
    returns (i: nat, j: nat)
    requires ProperNames(reg) && ValidAggregates(reg, aggregates) && IsGraphOf(g, reg, aggregates) && root < |g|
    requires ContinuesTwice(g, reg, aggregates, root, w, u)
    ensures EqualEdgesAfter(g, root, w, i, j) && g[EndOf(g, root, w)][i] == TypeEdge(reg, u)
  {
    EndInGraph(g, root, w);
    var t := EndOf(g, root, w);
    EqualEdgesMeaning(reg, aggregates, t, TypeEdge(reg, u));
    i, j :| 0 <= i < j < |g[t]| && g[t][i] == TypeEdge(reg, u) == g[t][j];
  }

  lemma EqualEdgesGiveTwice(
    g: Graph, reg: Registry, aggregates: seq<(TypeId, TypeId)>, root: TypeId, w: Walk, i: nat, j: nat)
    requires ProperNames(reg) && ValidAggregates(reg, aggregates) && IsGraphOf(g, reg, aggregates) && root < |g|
    requires EqualEdgesAfter(g, root, w, i, j)
    ensures ContinuesTwice(g, reg, aggregates, root, w, g[EndOf(g, root, w)][i].target)
  {
    var t := EndOf(g, root, w);
    EqualEdgesMeaning(reg, aggregates, t, g[t][i]);
  }

  /** MAIN: for properly named types the gathered root holds no entry twice exactly when no simple path
      from it reaches a type that a new type follows as a child and by an aggregation, or by two. */
  lemma GatheredDistinctIff(reg: Registry, aggregates: seq<(TypeId, TypeId)>, g: Graph, root: TypeId)
    requires ProperNames(reg) && ValidAggregates(reg, aggregates) && IsGraphOf(g, reg, aggregates) && root < |g|
    ensures Distinct(Gathered(g, root, {}, "")) <==>
            !exists w: Walk, u :: ContinuesTwice(g, reg, aggregates, root, w, u)
  {
    ProperNamesTellEdges(reg, aggregates, g);
    EntriesDistinctIff(g, root);
    if w: Walk, i: nat, j: nat :| EqualEdgesAfter(g, root, w, i, j) {
      EqualEdgesGiveTwice(g, reg, aggregates, root, w, i, j);
    }
    if w: Walk, u :| ContinuesTwice(g, reg, aggregates, root, w, u) {
      var i, j := TwiceGivesEqualEdges(g, reg, aggregates, root, w, u);
    }
  }

  lemma {:induction false} JoinsPositive(aggregates: seq<(TypeId, TypeId)>, t: TypeId, u: TypeId, n: nat, a: nat)
    requires a < n <= |aggregates| && (aggregates[a] == (t, u) || aggregates[a] == (u, t))
    ensures Joins(aggregates, t, u, n) >= Joins(aggregates, t, u, a) + 1
    decreases n
  {
    if a < n - 1 { JoinsPositive(aggregates, t, u, n - 1, a); }
  }

  /** An aggregation that is recorded twice, in whichever orders, makes entries repeat for every root
      that has a simple path to its one end without its other end, such as that end itself. */
  lemma AggregatedTwiceRepeats(
    reg: Registry, aggregates: seq<(TypeId, TypeId)>, g: Graph, root: TypeId, w: Walk, u: TypeId, a: nat, b: nat)
    requires ProperNames(reg) && ValidAggregates(reg, aggregates) && IsGraphOf(g, reg, aggregates) && root < |g|
    requires IsWalk(g, root, w) && Distinct(TypesAlong(g, root, w)) && u !in TypesAlong(g, root, w)
    requires a < b < |aggregates|
    requires aggregates[a] == (EndOf(g, root, w), u) || aggregates[a] == (u, EndOf(g, root, w))
    requires aggregates[b] == (EndOf(g, root, w), u) || aggregates[b] == (u, EndOf(g, root, w))
    ensures !Distinct(Gathered(g, root, {}, ""))
  {
    var t := EndOf(g, root, w);
    JoinsPositive(aggregates, t, u, b, a);
    JoinsPositive(aggregates, t, u, |aggregates|, b);
    GatheredDistinctIff(reg, aggregates, g, root);
    assert ContinuesTwice(g, reg, aggregates, root, w, u);
  }

  /** Two equal entries are listed at two positions. */
  lemma ListedTwice(output: seq<Entry>, tid: TypeId, path: string, a: nat, b: nat) returns (i: nat, j: nat)
    requires a < b < |output| && output[a] == output[b] == (tid, path)
    ensures i < j < |PathsOf(output, tid)| && PathsOf(output, tid)[i] == PathsOf(output, tid)[j] == path
  {
    var p := PathsOfPositions(output, tid);
    assert a in p && b in p;
    i :| 0 <= i < |p| && p[i] == a;
    j :| 0 <= j < |p| && p[j] == b;
  }

  /** MAIN: Get then lists the path to the other type, by way of that path, at least twice. */
  lemma AggregatedTwiceListsTwice(
    reg: Registry, aggregates: seq<(TypeId, TypeId)>, g: Graph, root: TypeId, w: Walk, u: TypeId, a: nat, b: nat)
    returns (i: nat, j: nat)
    requires ProperNames(reg) && ValidAggregates(reg, aggregates) && IsGraphOf(g, reg, aggregates) && root < |g|
    requires IsWalk(g, root, w) && Distinct(TypesAlong(g, root, w)) && u < |g| && u !in TypesAlong(g, root, w)
    requires a < b < |aggregates|
    requires aggregates[a] == (EndOf(g, root, w), u) || aggregates[a] == (u, EndOf(g, root, w))
    requires aggregates[b] == (EndOf(g, root, w), u) || aggregates[b] == (u, EndOf(g, root, w))
    ensures var paths := PathsOf(Gathered(g, root, {}, ""), u);
      i < j < |paths| && paths[i] == paths[j] == PathString(g, root, w) + "/" + ("$" + reg.types[u].name)
  {
    var t := EndOf(g, root, w);
    JoinsPositive(aggregates, t, u, b, a);
    JoinsPositive(aggregates, t, u, |aggregates|, b);
    var k, l := TwiceGivesEqualEdges(g, reg, aggregates, root, w, u);
    var p, q := EqualEdgesRepeatEntries(g, root, w, k, l);
    i, j := ListedTwice(Gathered(g, root, {}, ""), u, PathString(g, root, w) + "/" + ("$" + reg.types[u].name), p, q);
  }

  /** The root itself is the end of the empty path. */
  lemma AggregatedTwiceAtRoot(
    reg: Registry, aggregates: seq<(TypeId, TypeId)>, g: Graph, t: TypeId, u: TypeId, a: nat, b: nat)
    requires ProperNames(reg) && ValidAggregates(reg, aggregates) && IsGraphOf(g, reg, aggregates)
    requires t < |g| && t != u && a < b < |aggregates|
    requires aggregates[a] == (t, u) || aggregates[a] == (u, t)
    requires aggregates[b] == (t, u) || aggregates[b] == (u, t)
    ensures !Distinct(Gathered(g, t, {}, ""))
  {
    AggregatedTwiceRepeats(reg, aggregates, g, t, [], u, a, b);
  }

  // ---------------------------------------------------------------------------
  // Several roots
  // ---------------------------------------------------------------------------

  /** Simple paths from both roots spell the same and end at the same type. */
  ghost predicate SpellAlike(g: Graph, a: TypeId, b: TypeId)
    requires ValidGraph(g) && a < |g| && b < |g|
  {
    exists v: Walk, w: Walk ::
      IsWalk(g, a, v) && Distinct(TypesAlong(g, a, v)) && Spells(g, b, w, EndOf(g, a, v), PathString(g, a, v))
  }

  lemma DistinctConcat(a: seq<Entry>, b: seq<Entry>)
    ensures Distinct(a + b) <==> Distinct(a) && Distinct(b) && forall e :: e in a ==> e !in b
  {
    var both := a + b;
    if Distinct(both) {
      forall i, j | 0 <= i < |a| && 0 <= j < |b| ensures a[i] != b[j] {
        assert both[i] != both[|a| + j];
      }
      forall i, j | 0 <= i < j < |a| ensures a[i] != a[j] {
        assert both[i] != both[j];
      }
      forall i, j | 0 <= i < j < |b| ensures b[i] != b[j] {
        assert both[|a| + i] != both[|a| + j];
      }
    } else {
      var i, j :| 0 <= i < j < |both| && both[i] == both[j];
      if j < |a| {
        assert a[i] == a[j];
      } else if i < |a| {
        assert a[i] in a && b[j - |a|] in b && a[i] == b[j - |a|];
      } else {
        assert b[i - |a|] == b[j - |a|];
      }
    }
  }

  lemma AlikeIffShared(g: Graph, a: TypeId, b: TypeId)
    requires ValidGraph(g) && a < |g| && b < |g|
    ensures SpellAlike(g, a, b) <==> exists e :: e in Gathered(g, a, {}, "") && e in Gathered(g, b, {}, "")
  {
    if v: Walk, w: Walk :|
      IsWalk(g, a, v) && Distinct(TypesAlong(g, a, v)) && Spells(g, b, w, EndOf(g, a, v), PathString(g, a, v))
    {
      var e := (EndOf(g, a, v), PathString(g, a, v));
      EntryIffSpelled(g, a, e.0, e.1);
      EntryIffSpelled(g, b, e.0, e.1);
      assert Spells(g, a, v, e.0, e.1);
    }
    if e :| e in Gathered(g, a, {}, "") && e in Gathered(g, b, {}, "") {
      EntryIffSpelled(g, a, e.0, e.1);
      EntryIffSpelled(g, b, e.0, e.1);
      var v: Walk :| Spells(g, a, v, e.0, e.1);
      var w: Walk :| Spells(g, b, w, e.0, e.1);
    }
  }

  lemma {:induction false} InSomeRoot(g: Graph, roots: seq<TypeId>, n: nat, e: Entry)
    requires ValidGraph(g) && AreTypes(roots, |g|) && n <= |roots|
    ensures e in GatheredRoots(g, roots, n) <==> exists k :: 0 <= k < n && e in Gathered(g, roots[k], {}, "")
  {
    if n > 0 { InSomeRoot(g, roots, n - 1, e); }
  }

  lemma NewRootShares(g: Graph, roots: seq<TypeId>, n: nat)
    requires ValidGraph(g) && AreTypes(roots, |g|) && n < |roots|
    ensures (exists e :: e in GatheredRoots(g, roots, n) && e in Gathered(g, roots[n], {}, "")) <==>
            exists k :: 0 <= k < n && SpellAlike(g, roots[k], roots[n])
  {
    var last := Gathered(g, roots[n], {}, "");
    if e :| e in GatheredRoots(g, roots, n) && e in last {
      InSomeRoot(g, roots, n, e);
      var k :| 0 <= k < n && e in Gathered(g, roots[k], {}, "");
      AlikeIffShared(g, roots[k], roots[n]);
    }
    if k :| 0 <= k < n && SpellAlike(g, roots[k], roots[n]) {
      AlikeIffShared(g, roots[k], roots[n]);
      var e :| e in Gathered(g, roots[k], {}, "") && e in last;
      InSomeRoot(g, roots, n, e);
    }
  }

  /** MAIN: the whole output is free of duplicates exactly when each root's is and no two roots have
      simple paths that spell alike. */
  lemma {:induction false} RootsDistinctIff(g: Graph, roots: seq<TypeId>, n: nat)
    requires ValidGraph(g) && AreTypes(roots, |g|) && n <= |roots|
    ensures Distinct(GatheredRoots(g, roots, n)) <==>
            (forall k :: 0 <= k < n ==> Distinct(Gathered(g, roots[k], {}, ""))) &&
            (forall k, l :: 0 <= k < l < n ==> !SpellAlike(g, roots[k], roots[l]))
  {
    if n > 0 {
      RootsDistinctIff(g, roots, n - 1);
      NewRootShares(g, roots, n - 1);
      DistinctConcat(GatheredRoots(g, roots, n - 1), Gathered(g, roots[n - 1], {}, ""));
    }
  }
}
