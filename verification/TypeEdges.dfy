/** Which edges leave a type, and in what order, read off the registry. */
module TypeEdges {
  import opened TypeGraph

  /** An attribute leads to the type it points to, unless that is Object itself,
      and to the items of the container it holds. */
  predicate AttributeGives(reg: Registry, a: Attribute, e: Edge) {
    (a.kind == Pointer(e.target) && e.target != reg.objectType && e.name == a.name) ||
    (a.kind == Container(e.target) && e.name == a.name + "/[i]")
  }

  /** A descendant or partner is named after its own type. */
  predicate NamedAfter(reg: Registry, e: Edge, u: TypeId) {
    u < |reg.types| && e == Edge("$" + reg.types[u].name, u)
  }

  predicate PairGives(reg: Registry, pair: (TypeId, TypeId), t: TypeId, e: Edge) {
    (pair.0 == t && NamedAfter(reg, e, pair.1)) || (pair.1 == t && NamedAfter(reg, e, pair.0))
  }

  /** Where an edge comes from: attribute, child or aggregate number `index`. */
  datatype Origin = FromAttribute(index: nat) | FromChild(index: nat) | FromAggregate(index: nat)

  predicate Gives(reg: Registry, aggregates: seq<(TypeId, TypeId)>, t: TypeId, o: Origin, e: Edge)
    requires t < |reg.types|
  {
    match o
    case FromAttribute(a) =>
      a < |reg.types[t].attributes| && AttributeGives(reg, reg.types[t].attributes[a], e)
    case FromChild(c) => (c, t) in reg.descendants && NamedAfter(reg, e, c)
    case FromAggregate(p) => p < |aggregates| && PairGives(reg, aggregates[p], t, e)
  }

  /** Attributes before children before aggregates, each in list order. */
  predicate Earlier(a: Origin, b: Origin) {
    match a
    case FromAttribute(i) => !b.FromAttribute? || i < b.index
    case FromChild(i) => b.FromAggregate? || (b.FromChild? && i < b.index)
    case FromAggregate(i) => b.FromAggregate? && i < b.index
  }

  predicate Rising(at: seq<nat>, n: nat) {
    (forall i :: 0 <= i < |at| ==> at[i] < n) && (forall i, j :: 0 <= i < j < |at| ==> at[i] < at[j])
  }

  lemma {:induction false} AttributeOrder(reg: Registry, attributes: seq<Attribute>) returns (at: seq<nat>)
    ensures var edges := AttributeEdges(reg, attributes);
      && |at| == |edges| && Rising(at, |attributes|)
      && (forall i :: 0 <= i < |at| ==> AttributeGives(reg, attributes[at[i]], edges[i]))
      && (forall a, e :: 0 <= a < |attributes| && AttributeGives(reg, attributes[a], e) ==> a in at)
  {
    at := [];
    if attributes != [] {
      var n := |attributes| - 1;
      at := AttributeOrder(reg, attributes[..n]);
      if AttributeEdge(reg, attributes[n]) != [] { at := at + [n]; }
    }
  }

  lemma {:induction false} ChildOrder(reg: Registry, t: TypeId, n: nat) returns (at: seq<nat>)
    requires n <= |reg.types|
    ensures var edges := ChildEdges(reg, t, n);
      && |at| == |edges| && Rising(at, n)
      && (forall i :: 0 <= i < |at| ==> (at[i], t) in reg.descendants && NamedAfter(reg, edges[i], at[i]))
      && (forall c :: 0 <= c < n && (c, t) in reg.descendants ==> c in at)
  {
    at := [];
    if n > 0 {
      at := ChildOrder(reg, t, n - 1);
      if (n - 1, t) in reg.descendants { at := at + [n - 1]; }
    }
  }

  lemma {:induction false} AggregateOrder(reg: Registry, t: TypeId, aggregates: seq<(TypeId, TypeId)>)
    returns (at: seq<nat>)
    requires WfGraph(reg, aggregates)
    ensures var edges := AggregateEdges(reg, t, aggregates);
      && |at| == |edges| && Rising(at, |aggregates|)
      && (forall i :: 0 <= i < |at| ==> PairGives(reg, aggregates[at[i]], t, edges[i]))
      && (forall p, e :: 0 <= p < |aggregates| && PairGives(reg, aggregates[p], t, e) ==> p in at)
  {
    hide PairGives, AggregateEdge;
    at := [];
    if aggregates != [] {
      var n := |aggregates| - 1;
      PairEdge(reg, t, aggregates[n]);
      at := AggregateOrder(reg, t, aggregates[..n]);
      if AggregateEdge(reg, t, aggregates[n]) != [] { at := at + [n]; }
    }
  }

  lemma PairEdge(reg: Registry, t: TypeId, pair: (TypeId, TypeId))
    requires pair.0 < |reg.types| && pair.1 < |reg.types|
    ensures var edges := AggregateEdge(reg, t, pair);
      if edges == [] then forall e :: !PairGives(reg, pair, t, e) else PairGives(reg, pair, t, edges[0])
  {}

  function Origins(a: seq<nat>, c: seq<nat>, p: seq<nat>): (o: seq<Origin>)
    ensures |o| == |a| + |c| + |p|
    ensures forall i :: 0 <= i < |o| ==>
      (o[i] == if i < |a| then FromAttribute(a[i])
               else if i < |a| + |c| then FromChild(c[i - |a|])
               else FromAggregate(p[i - |a| - |c|]))
  {
    seq(|a|, i requires 0 <= i < |a| => FromAttribute(a[i])) +
    seq(|c|, i requires 0 <= i < |c| => FromChild(c[i])) +
    seq(|p|, i requires 0 <= i < |p| => FromAggregate(p[i]))
  }

  lemma OriginsRise(a: seq<nat>, c: seq<nat>, p: seq<nat>, l: nat, m: nat, n: nat)
    requires Rising(a, l) && Rising(c, m) && Rising(p, n)
    ensures var o := Origins(a, c, p); forall i, j :: 0 <= i < j < |o| ==> Earlier(o[i], o[j])
  {
    hide Origins;
  }

  lemma OriginsHave(a: seq<nat>, c: seq<nat>, p: seq<nat>, o: Origin)
    requires match o case FromAttribute(i) => i in a case FromChild(i) => i in c case FromAggregate(i) => i in p
    ensures o in Origins(a, c, p)
  {
    hide Origins;
    var all := Origins(a, c, p);
    match o
    case FromAttribute(i) =>
      var k :| 0 <= k < |a| && a[k] == i;
      assert all[k] == o;
    case FromChild(i) =>
      var k :| 0 <= k < |c| && c[k] == i;
      assert all[|a| + k] == o;
    case FromAggregate(i) =>
      var k :| 0 <= k < |p| && p[k] == i;
      assert all[|a| + |c| + k] == o;
  }

  lemma EdgeAt(reg: Registry, aggregates: seq<(TypeId, TypeId)>, t: TypeId, i: nat)
    requires WfGraph(reg, aggregates) && t < |reg.types| && i < |Edges(reg, aggregates, t)|
    ensures var a := AttributeEdges(reg, reg.types[t].attributes);
      var c, p := ChildEdges(reg, t, |reg.types|), AggregateEdges(reg, t, aggregates);
      |a| + |c| + |p| == |Edges(reg, aggregates, t)| &&
      Edges(reg, aggregates, t)[i] ==
        if i < |a| then a[i] else if i < |a| + |c| then c[i - |a|] else p[i - |a| - |c|]
  {
    hide AttributeEdges, ChildEdges, AggregateEdges, WfGraph;
  }

  lemma SameSize(reg: Registry, aggregates: seq<(TypeId, TypeId)>, t: TypeId)
    requires WfGraph(reg, aggregates) && t < |reg.types|
    ensures |Edges(reg, aggregates, t)| == |AttributeEdges(reg, reg.types[t].attributes)|
              + |ChildEdges(reg, t, |reg.types|)| + |AggregateEdges(reg, t, aggregates)|
  {
    hide AttributeEdges, ChildEdges, AggregateEdges, WfGraph;
  }

  /** The edges of a type in order: each comes from one attribute, child or
      aggregate, their origins rise, and nothing that gives an edge is left out. */
  lemma EdgesInOrder(reg: Registry, aggregates: seq<(TypeId, TypeId)>, t: TypeId) returns (origins: seq<Origin>)
    requires WfGraph(reg, aggregates) && t < |reg.types|
    ensures var edges := Edges(reg, aggregates, t);
      && |origins| == |edges|
      && (forall i :: 0 <= i < |edges| ==> Gives(reg, aggregates, t, origins[i], edges[i]))
      && (forall i, j :: 0 <= i < j < |edges| ==> Earlier(origins[i], origins[j]))
    ensures forall o, e :: Gives(reg, aggregates, t, o, e) ==> o in origins
  {
    hide Edges, AttributeEdges, ChildEdges, AggregateEdges, AttributeGives, PairGives, NamedAfter, WfGraph, Origins,
         Rising, Earlier;
    var a := AttributeOrder(reg, reg.types[t].attributes);
    var c := ChildOrder(reg, t, |reg.types|);
    var p := AggregateOrder(reg, t, aggregates);
    origins := Origins(a, c, p);
    SameSize(reg, aggregates, t);
    OriginsRise(a, c, p, |reg.types[t].attributes|, |reg.types|, |aggregates|);
    forall i | 0 <= i < |origins| ensures Gives(reg, aggregates, t, origins[i], Edges(reg, aggregates, t)[i]) {
      EdgeAt(reg, aggregates, t, i);
      InRange(a, |reg.types[t].attributes|);
      InRange(p, |aggregates|);
    }
    forall o, e | Gives(reg, aggregates, t, o, e) ensures o in origins {
      if o.FromChild? { ChildIsType(reg, e, o.index); }
      OriginsHave(a, c, p, o);
    }
  }

  lemma InRange(at: seq<nat>, n: nat)
    requires Rising(at, n)
    ensures forall i :: 0 <= i < |at| ==> at[i] < n
  {}

  lemma ChildIsType(reg: Registry, e: Edge, u: TypeId)
    requires NamedAfter(reg, e, u)
    ensures u < |reg.types|
  {}

  /** An attribute, child or aggregate gives at most one edge. */
  lemma OneEdgeEach(reg: Registry, aggregates: seq<(TypeId, TypeId)>, t: TypeId, o: Origin, d: Edge, e: Edge)
    requires t < |reg.types| && Gives(reg, aggregates, t, o, d) && Gives(reg, aggregates, t, o, e)
    ensures d == e
  {}

  /** Which edges leave a type. */
  lemma EdgesExactly(reg: Registry, aggregates: seq<(TypeId, TypeId)>, t: TypeId, name: string, u: TypeId)
    requires WfGraph(reg, aggregates) && t < |reg.types|
    ensures Edge(name, u) in Edges(reg, aggregates, t) <==>
      || (exists a :: a in reg.types[t].attributes && a.name == name && a.kind == Pointer(u) && u != reg.objectType)
      || (exists a :: a in reg.types[t].attributes && name == a.name + "/[i]" && a.kind == Container(u))
      || (u < |reg.types| && name == "$" + reg.types[u].name &&
          ((u, t) in reg.descendants || (t, u) in aggregates || (u, t) in aggregates))
  {
    var edges, e := Edges(reg, aggregates, t), Edge(name, u);
    var origins := EdgesInOrder(reg, aggregates, t);
    GivenExactly(reg, aggregates, t, e);
    hide Edges, WfGraph, Gives;
    if o :| Gives(reg, aggregates, t, o, e) {
      var i :| 0 <= i < |origins| && origins[i] == o;
      OneEdgeEach(reg, aggregates, t, o, edges[i], e);
    }
    if e in edges {
      var i :| 0 <= i < |edges| && edges[i] == e;
      assert Gives(reg, aggregates, t, origins[i], e);
    }
  }

  lemma GivenExactly(reg: Registry, aggregates: seq<(TypeId, TypeId)>, t: TypeId, e: Edge)
    requires t < |reg.types|
    ensures (exists o :: Gives(reg, aggregates, t, o, e)) <==>
      || (exists a :: a in reg.types[t].attributes && a.name == e.name && a.kind == Pointer(e.target)
                      && e.target != reg.objectType)
      || (exists a :: a in reg.types[t].attributes && e.name == a.name + "/[i]" && a.kind == Container(e.target))
      || (e.target < |reg.types| && e.name == "$" + reg.types[e.target].name &&
          ((e.target, t) in reg.descendants || (t, e.target) in aggregates || (e.target, t) in aggregates))
  {
    var attributes := reg.types[t].attributes;
    if a :| a in attributes && AttributeGives(reg, a, e) {
      var i :| 0 <= i < |attributes| && attributes[i] == a;
      assert Gives(reg, aggregates, t, FromAttribute(i), e);
    }
    if NamedAfter(reg, e, e.target) {
      var u := e.target;
      if (u, t) in reg.descendants { assert Gives(reg, aggregates, t, FromChild(u), e); }
      if (t, u) in aggregates {
        var p :| 0 <= p < |aggregates| && aggregates[p] == (t, u);
        assert Gives(reg, aggregates, t, FromAggregate(p), e);
      }
      if (u, t) in aggregates {
        var p :| 0 <= p < |aggregates| && aggregates[p] == (u, t);
        assert Gives(reg, aggregates, t, FromAggregate(p), e);
      }
    }
    if o :| Gives(reg, aggregates, t, o, e) {
      match o
      case FromAttribute(i) => assert attributes[i] in attributes;
      case FromChild(c) =>
      case FromAggregate(p) => assert aggregates[p] in aggregates;
    }
  }
}
