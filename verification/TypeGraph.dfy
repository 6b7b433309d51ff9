/** Configuration paths in the type graph, as utils/print-introspected-doxygen.cc
enumerates them: a depth-first walk over a graph that may have cycles, cut where
a type would repeat on the current path. */
module TypeGraph {
  import opened Wrappers

  /** Position of a type in the registry. */
  type TypeId = nat

  datatype Kind = Pointer(pointee: TypeId) | Container(item: TypeId) | Plain

  datatype Attribute = Attribute(name: string, kind: Kind)

  datatype TypeInfo = TypeInfo(name: string, attributes: seq<Attribute>)

  /** `descendants` holds (a, b) when a.IsChildOf (b); `objectType` is the TypeId of
      ns3::Object itself. */
  datatype Registry = Registry(types: seq<TypeInfo>, descendants: set<(TypeId, TypeId)>, objectType: TypeId)

  datatype Edge = Edge(name: string, target: TypeId)

  /** A path of the graph: which outgoing edge is taken at each step. */
  type Trail = seq<nat>

  predicate KnownKind(reg: Registry, k: Kind) {
    match k
    case Pointer(p) => p < |reg.types|
    case Container(i) => i < |reg.types|
    case Plain => true
  }

  /** All types that are mentioned are registered. */
  predicate WfGraph(reg: Registry, aggregates: seq<(TypeId, TypeId)>) {
    (forall t, i :: 0 <= t < |reg.types| && 0 <= i < |reg.types[t].attributes| ==>
       KnownKind(reg, reg.types[t].attributes[i].kind)) &&
    (forall a :: 0 <= a < |aggregates| ==> aggregates[a].0 < |reg.types| && aggregates[a].1 < |reg.types|)
  }

  // ---------- Edges ----------

  /** Pointers to plain Objects are not followed. */
  function AttributeEdge(reg: Registry, a: Attribute): (e: seq<Edge>)
    ensures |e| <= 1
  {
    match a.kind
    case Pointer(p) => if p == reg.objectType then [] else [Edge(a.name, p)]
    case Container(i) => [Edge(a.name + "/[i]", i)]
    case Plain => []
  }

  function ChildEdge(reg: Registry, t: TypeId, child: TypeId): (e: seq<Edge>)
    requires child < |reg.types|
    ensures |e| <= 1
  {
    if (child, t) in reg.descendants then [Edge("$" + reg.types[child].name, child)] else []
  }

  function AggregateEdge(reg: Registry, t: TypeId, pair: (TypeId, TypeId)): (e: seq<Edge>)
    requires pair.0 < |reg.types| && pair.1 < |reg.types|
    ensures |e| <= 1
  {
    if pair.1 == t then [Edge("$" + reg.types[pair.0].name, pair.0)]
    else if pair.0 == t then [Edge("$" + reg.types[pair.1].name, pair.1)]
    else []
  }

  function AttributeEdges(reg: Registry, attributes: seq<Attribute>): seq<Edge> {
    if attributes == [] then []
    else AttributeEdges(reg, attributes[..|attributes| - 1]) + AttributeEdge(reg, attributes[|attributes| - 1])
  }

  /** Edges to the descendants among the first n registered types. */
  function ChildEdges(reg: Registry, t: TypeId, n: nat): seq<Edge>
    requires n <= |reg.types|
  {
    if n == 0 then [] else ChildEdges(reg, t, n - 1) + ChildEdge(reg, t, n - 1)
  }

  function AggregateEdges(reg: Registry, t: TypeId, aggregates: seq<(TypeId, TypeId)>): seq<Edge>
    requires WfGraph(reg, aggregates)
  {
    if aggregates == [] then []
    else
      var front := aggregates[..|aggregates| - 1];
      AggregateEdges(reg, t, front) + AggregateEdge(reg, t, aggregates[|aggregates| - 1])
  }

  /** All outgoing edges of a type, in the order they are visited. */
  function Edges(reg: Registry, aggregates: seq<(TypeId, TypeId)>, t: TypeId): seq<Edge>
    requires WfGraph(reg, aggregates) && t < |reg.types|
  {
    AttributeEdges(reg, reg.types[t].attributes) + ChildEdges(reg, t, |reg.types|) + AggregateEdges(reg, t, aggregates)
  }

  predicate Known(reg: Registry, edges: seq<Edge>) {
    forall i :: 0 <= i < |edges| ==> edges[i].target < |reg.types|
  }

  lemma {:induction false} KnownAttributes(reg: Registry, attributes: seq<Attribute>)
    requires forall i :: 0 <= i < |attributes| ==> KnownKind(reg, attributes[i].kind)
    ensures Known(reg, AttributeEdges(reg, attributes))
  {
    if attributes != [] {
      KnownAttributes(reg, attributes[..|attributes| - 1]);
      assert KnownKind(reg, attributes[|attributes| - 1].kind);
    }
  }

  lemma {:induction false} KnownChildren(reg: Registry, t: TypeId, n: nat)
    requires n <= |reg.types|
    ensures Known(reg, ChildEdges(reg, t, n))
  {
    if n > 0 { KnownChildren(reg, t, n - 1); }
  }

  lemma {:induction false} KnownAggregates(reg: Registry, t: TypeId, aggregates: seq<(TypeId, TypeId)>)
    requires WfGraph(reg, aggregates)
    ensures Known(reg, AggregateEdges(reg, t, aggregates))
  {
    if aggregates != [] { KnownAggregates(reg, t, aggregates[..|aggregates| - 1]); }
  }

  lemma KnownEdges(reg: Registry, aggregates: seq<(TypeId, TypeId)>, t: TypeId)
    requires WfGraph(reg, aggregates) && t < |reg.types|
    ensures Known(reg, Edges(reg, aggregates, t))
  {
    KnownAttributes(reg, reg.types[t].attributes);
    KnownChildren(reg, t, |reg.types|);
    KnownAggregates(reg, t, aggregates);
  }

  // ---------- Depth-first enumeration ----------

  /** The graph as a table of edge lists. */
  datatype Graph = Graph(out: seq<seq<Edge>>) {
    ghost predicate Closed() {
      forall t, i :: 0 <= t < |out| && 0 <= i < |out[t]| ==> out[t][i].target < |out|
    }
  }

  /** How many types are not yet on the path. */
  ghost function Unseen(n: nat, visited: set<TypeId>): nat { |Below(n) - visited| }

  lemma UnseenShrinks(n: nat, visited: set<TypeId>, t: TypeId)
    requires t < n && t !in visited
    ensures Unseen(n, visited + {t}) < Unseen(n, visited)
  {
    assert Below(n) - visited == (Below(n) - (visited + {t})) + {t};
  }

  function Prefixed(i: nat, trails: seq<Trail>): (r: seq<Trail>)
    ensures |r| == |trails| && forall j :: 0 <= j < |r| ==> r[j] == [i] + trails[j]
  {
    seq(|trails|, j requires 0 <= j < |trails| => [i] + trails[j])
  }

  /** The trails from t that avoid `visited`, in the order of the walk. */
  ghost function Trails(g: Graph, visited: set<TypeId>, t: TypeId): seq<Trail>
    requires g.Closed() && t < |g.out|
    decreases Unseen(|g.out|, visited), |g.out[t]| + 1
  {
    if t in visited then [] else [[]] + TrailsVia(g, visited, t, |g.out[t]|)
  }

  /** The same, through the first n edges of t. */
  ghost function TrailsVia(g: Graph, visited: set<TypeId>, t: TypeId, n: nat): seq<Trail>
    requires g.Closed() && t < |g.out| && t !in visited && n <= |g.out[t]|
    decreases Unseen(|g.out|, visited), n
  {
    if n == 0 then []
    else
      UnseenShrinks(|g.out|, visited, t);
      TrailsVia(g, visited, t, n - 1) + Prefixed(n - 1, Trails(g, visited + {t}, g.out[t][n - 1].target))
  }

  // ---------- Paths of the graph, independently ----------

  /** The trail can be followed from t. */
  predicate Walk(g: Graph, t: TypeId, trail: Trail)
    decreases |trail|
  {
    t < |g.out| && (trail == [] || (trail[0] < |g.out[t]| && Walk(g, g.out[t][trail[0]].target, trail[1..])))
  }

  /** The types on the way, both ends included. */
  function Stops(g: Graph, t: TypeId, trail: Trail): seq<TypeId>
    requires Walk(g, t, trail)
    decreases |trail|
  {
    if trail == [] then [t] else [t] + Stops(g, g.out[t][trail[0]].target, trail[1..])
  }

  predicate Distinct(s: seq<TypeId>) { forall i, j :: 0 <= i < j < |s| ==> s[i] != s[j] }

  predicate Avoids(s: seq<TypeId>, visited: set<TypeId>) { forall i :: 0 <= i < |s| ==> s[i] !in visited }

  /** A path that repeats no type and avoids the given ones. */
  predicate SimpleTrail(g: Graph, visited: set<TypeId>, t: TypeId, trail: Trail) {
    Walk(g, t, trail) && Distinct(Stops(g, t, trail)) && Avoids(Stops(g, t, trail), visited)
  }

  lemma SimpleStep(g: Graph, visited: set<TypeId>, t: TypeId, trail: Trail)
    requires g.Closed() && t < |g.out| && trail != []
    ensures SimpleTrail(g, visited, t, trail) <==>
            t !in visited && trail[0] < |g.out[t]| &&
            SimpleTrail(g, visited + {t}, g.out[t][trail[0]].target, trail[1..])
  {
    if Walk(g, t, trail) {
      var next := g.out[t][trail[0]].target;
      var rest := Stops(g, next, trail[1..]);
      var all := Stops(g, t, trail);
      assert all == [t] + rest;
      if SimpleTrail(g, visited, t, trail) {
        assert all[0] == t;
        forall i | 0 <= i < |rest| ensures rest[i] !in visited + {t} { assert all[i + 1] == rest[i]; }
        forall i, j | 0 <= i < j < |rest| ensures rest[i] != rest[j] {
          assert all[i + 1] == rest[i] && all[j + 1] == rest[j];
        }
      }
    }
  }

  lemma {:induction false} TrailsExact(g: Graph, visited: set<TypeId>, t: TypeId, trail: Trail)
    requires g.Closed() && t < |g.out|
    ensures trail in Trails(g, visited, t) <==> SimpleTrail(g, visited, t, trail)
    decreases Unseen(|g.out|, visited), |g.out[t]| + 1
  {
    if t in visited {
      if Walk(g, t, trail) { assert Stops(g, t, trail)[0] == t; }
    } else if trail == [] {
      assert Trails(g, visited, t)[0] == [];
      assert Stops(g, t, trail) == [t];
    } else {
      TrailsViaExact(g, visited, t, |g.out[t]|, trail);
      SimpleStep(g, visited, t, trail);
      assert trail in [[]] + TrailsVia(g, visited, t, |g.out[t]|) <==> trail in TrailsVia(g, visited, t, |g.out[t]|);
    }
  }

  lemma {:induction false} TrailsViaExact(g: Graph, visited: set<TypeId>, t: TypeId, n: nat, trail: Trail)
    requires g.Closed() && t < |g.out| && t !in visited && n <= |g.out[t]|
    ensures trail in TrailsVia(g, visited, t, n) <==>
            trail != [] && trail[0] < n && SimpleTrail(g, visited + {t}, g.out[t][trail[0]].target, trail[1..])
    decreases Unseen(|g.out|, visited), n
  {
    if n > 0 {
      UnseenShrinks(|g.out|, visited, t);
      var next := g.out[t][n - 1].target;
      TrailsViaExact(g, visited, t, n - 1, trail);
      InPrefixed(n - 1, Trails(g, visited + {t}, next), trail);
      if trail != [] { TrailsExact(g, visited + {t}, next, trail[1..]); }
    }
  }

  lemma InPrefixed(i: nat, trails: seq<Trail>, trail: Trail)
    ensures trail in Prefixed(i, trails) <==> trail != [] && trail[0] == i && trail[1..] in trails
  {
    if trail in Prefixed(i, trails) {
      var j :| 0 <= j < |trails| && Prefixed(i, trails)[j] == trail;
      assert trail[1..] == trails[j];
    }
    if trail != [] && trail[0] == i && trail[1..] in trails {
      var j :| 0 <= j < |trails| && trails[j] == trail[1..];
      assert Prefixed(i, trails)[j] == [i] + trail[1..] == trail;
    }
  }

  // ---------- Order ----------

  /** Depth-first order: a path comes before its extensions, and extensions are
      ordered by the edge taken where they part. */
  predicate Before(a: Trail, b: Trail) {
    if b == [] then false
    else if a == [] then true
    else a[0] < b[0] || (a[0] == b[0] && Before(a[1..], b[1..]))
  }

  predicate InOrder(trails: seq<Trail>) { forall i, j :: 0 <= i < j < |trails| ==> Before(trails[i], trails[j]) }

  lemma PrefixedInOrder(i: nat, trails: seq<Trail>)
    requires InOrder(trails)
    ensures InOrder(Prefixed(i, trails))
  {
    var r := Prefixed(i, trails);
    forall j, k | 0 <= j < k < |r| ensures Before(r[j], r[k]) {
      assert r[j][1..] == trails[j] && r[k][1..] == trails[k];
    }
  }

  lemma {:induction false} TrailsInOrder(g: Graph, visited: set<TypeId>, t: TypeId)
    requires g.Closed() && t < |g.out|
    ensures InOrder(Trails(g, visited, t))
    decreases Unseen(|g.out|, visited), |g.out[t]| + 1
  {
    if t !in visited {
      var via := TrailsVia(g, visited, t, |g.out[t]|);
      TrailsViaInOrder(g, visited, t, |g.out[t]|);
      forall j | 0 <= j < |via| ensures via[j] != [] {
        TrailsViaExact(g, visited, t, |g.out[t]|, via[j]);
      }
    }
  }

  lemma {:induction false} TrailsViaInOrder(g: Graph, visited: set<TypeId>, t: TypeId, n: nat)
    requires g.Closed() && t < |g.out| && t !in visited && n <= |g.out[t]|
    ensures InOrder(TrailsVia(g, visited, t, n))
    decreases Unseen(|g.out|, visited), n
  {
    if n > 0 {
      UnseenShrinks(|g.out|, visited, t);
      var a := TrailsVia(g, visited, t, n - 1);
      var next := g.out[t][n - 1].target;
      var b := Prefixed(n - 1, Trails(g, visited + {t}, next));
      TrailsViaInOrder(g, visited, t, n - 1);
      TrailsInOrder(g, visited + {t}, next);
      PrefixedInOrder(n - 1, Trails(g, visited + {t}, next));
      forall i | 0 <= i < |a| ensures a[i] != [] && a[i][0] < n - 1 {
        TrailsViaExact(g, visited, t, n - 1, a[i]);
      }
      OrderJoins(a, b, n - 1);
    }
  }

  lemma OrderJoins(a: seq<Trail>, b: seq<Trail>, n: nat)
    requires InOrder(a) && InOrder(b)
    requires forall i :: 0 <= i < |a| ==> a[i] != [] && a[i][0] < n
    requires forall i :: 0 <= i < |b| ==> b[i] != [] && b[i][0] == n
    ensures InOrder(a + b)
  {}

  lemma {:induction false} BeforeIsStrict(a: Trail)
    ensures !Before(a, a)
  {
    if a != [] { BeforeIsStrict(a[1..]); }
  }

  /** The walk visits exactly the paths from the root that repeat no type, each
      once, in depth-first order. */
  lemma EnumerationIsExact(g: Graph, root: TypeId)
    requires g.Closed() && root < |g.out|
    ensures forall trail :: trail in Trails(g, {}, root) <==>
                            Walk(g, root, trail) && Distinct(Stops(g, root, trail))
    ensures InOrder(Trails(g, {}, root))
    ensures forall i, j :: 0 <= i < j < |Trails(g, {}, root)| ==> Trails(g, {}, root)[i] != Trails(g, {}, root)[j]
  {
    forall trail ensures trail in Trails(g, {}, root) <==> SimpleTrail(g, {}, root, trail) {
      TrailsExact(g, {}, root, trail);
    }
    TrailsInOrder(g, {}, root);
    var ts := Trails(g, {}, root);
    forall i, j | 0 <= i < j < |ts| ensures ts[i] != ts[j] { BeforeIsStrict(ts[i]); }
  }
}
