/** The StaticInformation object of utils/print-introspected-doxygen.cc, with its
two stacks and its list of results. */
module TypeGatherer {
  import opened TypeGraph

  function GraphOf(reg: Registry, aggregates: seq<(TypeId, TypeId)>): (g: Graph)
    requires WfGraph(reg, aggregates)
    ensures |g.out| == |reg.types|
    ensures forall t :: 0 <= t < |g.out| ==> g.out[t] == Edges(reg, aggregates, t)
  {
    Graph(seq(|reg.types|, t requires 0 <= t < |reg.types| => Edges(reg, aggregates, t)))
  }

  lemma GraphIsClosed(reg: Registry, aggregates: seq<(TypeId, TypeId)>)
    requires WfGraph(reg, aggregates)
    ensures GraphOf(reg, aggregates).Closed()
  {
    var g := GraphOf(reg, aggregates);
    forall t, i | 0 <= t < |g.out| && 0 <= i < |g.out[t]| ensures g.out[t][i].target < |g.out| {
      KnownEdges(reg, aggregates, t);
    }
  }

  /** Path elements, each behind a slash. */
  function PathString(path: seq<string>): string {
    if path == [] then "" else PathString(path[..|path| - 1]) + "/" + path[|path| - 1]
  }

  /** The type where a trail ends. */
  function EndOf(g: Graph, t: TypeId, trail: Trail): TypeId
    decreases |trail|
  {
    if trail != [] && t < |g.out| && trail[0] < |g.out[t]| then EndOf(g, g.out[t][trail[0]].target, trail[1..]) else t
  }

  /** The edge names along a trail. */
  function NamesOn(g: Graph, t: TypeId, trail: Trail): seq<string>
    decreases |trail|
  {
    if trail != [] && t < |g.out| && trail[0] < |g.out[t]| then
      [g.out[t][trail[0]].name] + NamesOn(g, g.out[t][trail[0]].target, trail[1..])
    else []
  }

  lemma {:induction false} EndIsLastStop(g: Graph, t: TypeId, trail: Trail)
    requires Walk(g, t, trail)
    ensures |NamesOn(g, t, trail)| == |trail| && |Stops(g, t, trail)| == |trail| + 1
    ensures EndOf(g, t, trail) == Stops(g, t, trail)[|trail|]
    decreases |trail|
  {
    if trail != [] { EndIsLastStop(g, g.out[t][trail[0]].target, trail[1..]); }
  }

  function Entry(g: Graph, t: TypeId, path: seq<string>, trail: Trail): (TypeId, string) {
    (EndOf(g, t, trail), PathString(path + NamesOn(g, t, trail)))
  }

  /** What is recorded for a list of trails that start at t, reached by `path`. */
  function Entries(g: Graph, t: TypeId, path: seq<string>, trails: seq<Trail>): (r: seq<(TypeId, string)>)
    ensures |r| == |trails| && forall i :: 0 <= i < |r| ==> r[i] == Entry(g, t, path, trails[i])
  {
    seq(|trails|, i requires 0 <= i < |trails| => Entry(g, t, path, trails[i]))
  }

  lemma EntriesAppend(g: Graph, t: TypeId, path: seq<string>, a: seq<Trail>, b: seq<Trail>)
    ensures Entries(g, t, path, a + b) == Entries(g, t, path, a) + Entries(g, t, path, b)
  {}

  lemma EntriesPrefixed(g: Graph, t: TypeId, path: seq<string>, i: nat, trails: seq<Trail>)
    requires t < |g.out| && i < |g.out[t]|
    ensures Entries(g, t, path, Prefixed(i, trails))
            == Entries(g, g.out[t][i].target, path + [g.out[t][i].name], trails)
  {
    var e := g.out[t][i];
    forall j | 0 <= j < |trails|
      ensures Entry(g, t, path, Prefixed(i, trails)[j]) == Entry(g, e.target, path + [e.name], trails[j])
    {
      var trail := [i] + trails[j];
      assert trail[1..] == trails[j];
      assert path + ([e.name] + NamesOn(g, e.target, trails[j])) == path + [e.name] + NamesOn(g, e.target, trails[j]);
    }
  }

  /** What is recorded for one root. */
  ghost function EntriesFrom(reg: Registry, aggregates: seq<(TypeId, TypeId)>, root: TypeId): seq<(TypeId, string)>
    requires WfGraph(reg, aggregates) && root < |reg.types|
  {
    GraphIsClosed(reg, aggregates);
    Entries(GraphOf(reg, aggregates), root, [], Trails(GraphOf(reg, aggregates), {}, root))
  }

  predicate AreTypes(reg: Registry, roots: seq<TypeId>) { forall r :: 0 <= r < |roots| ==> roots[r] < |reg.types| }

  /** What is recorded for a list of roots, one after the other. */
  ghost function EntriesOfAll(reg: Registry, aggregates: seq<(TypeId, TypeId)>, roots: seq<TypeId>)
    : seq<(TypeId, string)>
    requires WfGraph(reg, aggregates) && AreTypes(reg, roots)
  {
    if roots == [] then []
    else
      EntriesOfAll(reg, aggregates, roots[..|roots| - 1]) + EntriesFrom(reg, aggregates, roots[|roots| - 1])
  }

  function SetOf(s: seq<TypeId>): set<TypeId> { set t | t in s }

  class StaticInformation {
    const registry: Registry
    const aggregates: seq<(TypeId, TypeId)>
    var output: seq<(TypeId, string)>
    var currentPath: seq<string>
    var alreadyProcessed: seq<TypeId>

    /** The two stacks run in step, and no type is on the path twice. */
    ghost predicate Valid()
      reads this
    {
      WfGraph(registry, aggregates) && |currentPath| == |alreadyProcessed| && Distinct(alreadyProcessed)
      && forall i :: 0 <= i < |alreadyProcessed| ==> alreadyProcessed[i] < |registry.types|
    }

    ghost function G(): (g: Graph)
      requires WfGraph(registry, aggregates)
      ensures g.Closed() && g == GraphOf(registry, aggregates)
    {
      GraphIsClosed(registry, aggregates);
      GraphOf(registry, aggregates)
    }

    constructor (registry: Registry, aggregates: seq<(TypeId, TypeId)>)
      requires WfGraph(registry, aggregates)
      ensures Valid() && this.registry == registry && this.aggregates == aggregates
      ensures output == [] && currentPath == [] && alreadyProcessed == []
    {
      this.registry, this.aggregates := registry, aggregates;
      output, currentPath, alreadyProcessed := [], [], [];
    }

    method GetCurrentPath() returns (s: string)
      ensures s == PathString(currentPath)
    {
      s := "";
      for i := 0 to |currentPath|
        invariant s == PathString(currentPath[..i])
      {
        assert currentPath[..i + 1][..i] == currentPath[..i];
        s := s + "/" + currentPath[i];
      }
      assert currentPath[..|currentPath|] == currentPath;
    }

    method RecordOutput(tid: TypeId)
      modifies this`output
      ensures output == old(output) + [(tid, PathString(currentPath))]
    {
      var path := GetCurrentPath();
      output := output + [(tid, path)];
    }

    method HasAlreadyBeenProcessed(tid: TypeId) returns (found: bool)
      ensures found <==> tid in alreadyProcessed
    {
      for i := 0 to |alreadyProcessed|
        invariant tid !in alreadyProcessed[..i]
      {
        if alreadyProcessed[i] == tid { return true; }
      }
      return false;
    }

    /** The recorded paths of one type, in order of recording. */
    method Get(tid: TypeId) returns (paths: seq<string>)
      ensures paths == PathsOf(output, tid)
    {
      paths := [];
      for i := 0 to |output|
        invariant paths == PathsOf(output[..i], tid)
      {
        assert output[..i + 1][..i] == output[..i];
        if output[i].0 == tid { paths := paths + [output[i].1]; }
      }
      assert output[..|output|] == output;
    }

    /** Push, gather, pop: what the walk does at edge number n of tid. */
    method Follow(tid: TypeId, edge: Edge, ghost n: nat)
      requires Valid() && tid < |registry.types| && tid !in alreadyProcessed
      requires n < |Edges(registry, aggregates, tid)| && edge == Edges(registry, aggregates, tid)[n]
      modifies this
      ensures Valid() && currentPath == old(currentPath) && alreadyProcessed == old(alreadyProcessed)
      ensures edge.target < |registry.types|
      ensures output == old(output) + Entries(G(), edge.target, currentPath + [edge.name],
                                              Trails(G(), SetOf(alreadyProcessed) + {tid}, edge.target))
      decreases Unseen(|registry.types|, SetOf(alreadyProcessed)), 0
    {
      hide Edges, Entries, Trails, Unseen, GraphOf;
      KnownEdges(registry, aggregates, tid);
      UnseenShrinks(|registry.types|, SetOf(alreadyProcessed), tid);
      assert SetOf(alreadyProcessed + [tid]) == SetOf(alreadyProcessed) + {tid};
      currentPath := currentPath + [edge.name];
      alreadyProcessed := alreadyProcessed + [tid];
      DoGather(edge.target);
      alreadyProcessed := alreadyProcessed[..|alreadyProcessed| - 1];
      currentPath := currentPath[..|currentPath| - 1];
    }

    /** What has been recorded once the first n edges of tid are done. */
    ghost predicate Done(before: seq<(TypeId, string)>, tid: TypeId, n: nat)
      requires Valid() && tid < |registry.types| && tid !in alreadyProcessed
      reads this
    {
      n <= |Edges(registry, aggregates, tid)| &&
      output == Recorded(G(), SetOf(alreadyProcessed), currentPath, tid, n, before)
    }

    /** One optional edge of tid: nothing to do, or follow it. */
    method TryEdge(tid: TypeId, edges: seq<Edge>, ghost before: seq<(TypeId, string)>, ghost n: nat)
      requires Valid() && tid < |registry.types| && tid !in alreadyProcessed && |edges| <= 1
      requires Done(before, tid, n) && n + |edges| <= |Edges(registry, aggregates, tid)|
      requires edges == Edges(registry, aggregates, tid)[n..n + |edges|]
      modifies this
      ensures Valid() && currentPath == old(currentPath) && alreadyProcessed == old(alreadyProcessed)
      ensures Done(before, tid, n + |edges|)
      decreases Unseen(|registry.types|, SetOf(alreadyProcessed)), 1
    {
      hide Edges, Entries, Trails, Unseen, Recorded;
      if |edges| == 1 {
        assert edges[0] == G().out[tid][n];
        RecordedGrows(G(), SetOf(alreadyProcessed), currentPath, tid, n, before);
        Follow(tid, edges[0], n);
      }
    }

    /** The loop over the attributes. */
    method GatherAttributes(tid: TypeId, ghost before: seq<(TypeId, string)>)
      requires Valid() && tid < |registry.types| && tid !in alreadyProcessed && Done(before, tid, 0)
      modifies this
      ensures Valid() && currentPath == old(currentPath) && alreadyProcessed == old(alreadyProcessed)
      ensures Done(before, tid, |AttributeEdges(registry, registry.types[tid].attributes)|)
      decreases Unseen(|registry.types|, SetOf(alreadyProcessed)), 2
    {
      hide Trails, Unseen, Recorded, AttributeEdges, AttributeEdge, Done;
      var attributes := registry.types[tid].attributes;
      AttributePrefix(registry, attributes, 0);
      assert attributes[..0] == [];
      for i := 0 to |attributes|
        invariant Valid() && currentPath == old(currentPath) && alreadyProcessed == old(alreadyProcessed)
        invariant Done(before, tid, |AttributeEdges(registry, attributes[..i])|)
      {
        AttributePrefix(registry, attributes, i);
        TryEdge(tid, AttributeEdge(registry, attributes[i]), before, |AttributeEdges(registry, attributes[..i])|);
      }
      assert attributes[..|attributes|] == attributes;
    }

    /** The loop over the registered types. */
    method GatherChildren(tid: TypeId, ghost before: seq<(TypeId, string)>, ghost n: nat)
      requires Valid() && tid < |registry.types| && tid !in alreadyProcessed
      requires n == |AttributeEdges(registry, registry.types[tid].attributes)| && Done(before, tid, n)
      modifies this
      ensures Valid() && currentPath == old(currentPath) && alreadyProcessed == old(alreadyProcessed)
      ensures Done(before, tid, n + |ChildEdges(registry, tid, |registry.types|)|)
      decreases Unseen(|registry.types|, SetOf(alreadyProcessed)), 2
    {
      hide Trails, Unseen, Recorded, AttributeEdges, ChildEdges, ChildEdge, Done;
      ChildPrefix(registry, tid, 0);
      for j := 0 to |registry.types|
        invariant Valid() && currentPath == old(currentPath) && alreadyProcessed == old(alreadyProcessed)
        invariant Done(before, tid, n + |ChildEdges(registry, tid, j)|)
      {
        ChildPrefix(registry, tid, j);
        TryEdge(tid, ChildEdge(registry, tid, j), before, n + |ChildEdges(registry, tid, j)|);
      }
    }

    /** The loop over the aggregation relation. */
    method GatherAggregates(tid: TypeId, ghost before: seq<(TypeId, string)>, ghost n: nat)
      requires Valid() && tid < |registry.types| && tid !in alreadyProcessed && Done(before, tid, n)
      requires n == |AttributeEdges(registry, registry.types[tid].attributes)|
                    + |ChildEdges(registry, tid, |registry.types|)|
      modifies this
      ensures Valid() && currentPath == old(currentPath) && alreadyProcessed == old(alreadyProcessed)
      ensures Done(before, tid, n + |AggregateEdges(registry, tid, aggregates)|)
      decreases Unseen(|registry.types|, SetOf(alreadyProcessed)), 2
    {
      hide Trails, Unseen, Recorded, AttributeEdges, ChildEdges, AggregateEdges, AggregateEdge, Done;
      AggregatePrefix(registry, tid, aggregates, 0);
      assert aggregates[..0] == [];
      for k := 0 to |aggregates|
        invariant Valid() && currentPath == old(currentPath) && alreadyProcessed == old(alreadyProcessed)
        invariant WfGraph(registry, aggregates[..k])
        invariant Done(before, tid, n + |AggregateEdges(registry, tid, aggregates[..k])|)
      {
        AggregatePrefix(registry, tid, aggregates, k);
        TryEdge(tid, AggregateEdge(registry, tid, aggregates[k]), before,
                n + |AggregateEdges(registry, tid, aggregates[..k])|);
      }
      assert aggregates[..|aggregates|] == aggregates;
    }

    /** DoGather: terminates on every graph, restores both stacks, and appends
        one entry for each path from tid that repeats no type. */
    method DoGather(tid: TypeId)
      requires Valid() && tid < |registry.types|
      modifies this
      ensures Valid() && currentPath == old(currentPath) && alreadyProcessed == old(alreadyProcessed)
      ensures output == old(output) + Entries(G(), tid, currentPath, Trails(G(), SetOf(alreadyProcessed), tid))
      decreases Unseen(|registry.types|, SetOf(alreadyProcessed)), 3
    {
      hide Unseen, Recorded, AttributeEdges, ChildEdges, AggregateEdges, WfGraph, Entries;
      var seen := HasAlreadyBeenProcessed(tid);
      if seen {
        assert Entries(G(), tid, currentPath, []) == [];
        return;
      }
      ghost var before := output;
      RecordOutput(tid);
      RecordedStart(G(), SetOf(alreadyProcessed), currentPath, tid, before);
      GatherAttributes(tid, before);
      ghost var n := |AttributeEdges(registry, registry.types[tid].attributes)|;
      GatherChildren(tid, before, n);
      GatherAggregates(tid, before, n + |ChildEdges(registry, tid, |registry.types|)|);
      RecordedEnd(G(), SetOf(alreadyProcessed), currentPath, tid, before);
    }

    /** Gather; Uniquefy gets a copy of the results, so it changes nothing. */
    method Gather(tid: TypeId)
      requires Valid() && tid < |registry.types| && alreadyProcessed == []
      modifies this
      ensures Valid() && currentPath == [] && alreadyProcessed == []
      ensures output == old(output) + EntriesFrom(registry, aggregates, tid)
    {
      hide Entries, Trails;
      assert SetOf([]) == {};
      DoGather(tid);
    }

    /** The program's only use of Gather: one call for each root object. */
    method GatherRoots(roots: seq<TypeId>)
      requires Valid() && AreTypes(registry, roots) && alreadyProcessed == []
      modifies this
      ensures Valid() && currentPath == [] && alreadyProcessed == []
      ensures output == old(output) + EntriesOfAll(registry, aggregates, roots)
    {
      hide Entries, Trails, WfGraph, EntriesFrom, Distinct;
      assert roots[..0] == [];
      for i := 0 to |roots|
        invariant Valid() && currentPath == [] && alreadyProcessed == []
        invariant output == old(output) + EntriesOfAll(registry, aggregates, roots[..i])
      {
        assert roots[..i + 1][..i] == roots[..i];
        Gather(roots[i]);
      }
      assert roots[..|roots|] == roots;
    }
  }

  function PathsOf(output: seq<(TypeId, string)>, tid: TypeId): seq<string> {
    if output == [] then []
    else
      PathsOf(output[..|output| - 1], tid) + if output[|output| - 1].0 == tid then [output[|output| - 1].1] else []
  }

  /** The results after the first n edges of t. */
  ghost function Recorded(g: Graph, visited: set<TypeId>, path: seq<string>, t: TypeId, n: nat,
                          before: seq<(TypeId, string)>): seq<(TypeId, string)>
    requires g.Closed() && t < |g.out| && t !in visited && n <= |g.out[t]|
  {
    before + Entries(g, t, path, [[]] + TrailsVia(g, visited, t, n))
  }

  lemma RecordedStart(g: Graph, visited: set<TypeId>, path: seq<string>, t: TypeId, before: seq<(TypeId, string)>)
    requires g.Closed() && t < |g.out| && t !in visited
    ensures Recorded(g, visited, path, t, 0, before) == before + [(t, PathString(path))]
  {
    assert path + [] == path;
  }

  lemma RecordedEnd(g: Graph, visited: set<TypeId>, path: seq<string>, t: TypeId, before: seq<(TypeId, string)>)
    requires g.Closed() && t < |g.out| && t !in visited
    ensures Recorded(g, visited, path, t, |g.out[t]|, before)
            == before + Entries(g, t, path, Trails(g, visited, t))
  {}

  lemma RecordedGrows(g: Graph, visited: set<TypeId>, path: seq<string>, t: TypeId, n: nat,
                      before: seq<(TypeId, string)>)
    requires g.Closed() && t < |g.out| && t !in visited && n < |g.out[t]|
    ensures var e := g.out[t][n];
      Recorded(g, visited, path, t, n + 1, before)
      == Recorded(g, visited, path, t, n, before)
         + Entries(g, e.target, path + [e.name], Trails(g, visited + {t}, e.target))
  {
    hide Entries, Prefixed, Trails, TrailsVia;
    var done := TrailsVia(g, visited, t, n);
    var more := Trails(g, visited + {t}, g.out[t][n].target);
    ViaGrows(g, visited, t, n);
    EntriesPrefixed(g, t, path, n, more);
    EntriesAppend(g, t, path, [[]] + done, Prefixed(n, more));
    JoinLater([[]], done, Prefixed(n, more));
    JoinLater(before, Entries(g, t, path, [[]] + done), Entries(g, t, path, Prefixed(n, more)));
  }

  lemma ViaGrows(g: Graph, visited: set<TypeId>, t: TypeId, n: nat)
    requires g.Closed() && t < |g.out| && t !in visited && n < |g.out[t]|
    ensures TrailsVia(g, visited, t, n + 1)
            == TrailsVia(g, visited, t, n) + Prefixed(n, Trails(g, visited + {t}, g.out[t][n].target))
  {
    hide Prefixed, Trails;
  }

  lemma JoinLater<T>(a: seq<T>, b: seq<T>, c: seq<T>)
    ensures a + (b + c) == a + b + c
  {}

  /** The first i attributes and the next one, inside the whole edge list. */
  lemma {:induction false} AttributePrefix(reg: Registry, attributes: seq<Attribute>, i: nat)
    requires i <= |attributes|
    ensures AttributeEdges(reg, attributes[..i]) <= AttributeEdges(reg, attributes)
    ensures i == 0 ==> AttributeEdges(reg, attributes[..i]) == []
    ensures i < |attributes| ==>
      AttributeEdges(reg, attributes[..i + 1]) == AttributeEdges(reg, attributes[..i]) + AttributeEdge(reg, attributes[i])
      && AttributeEdges(reg, attributes[..i + 1]) <= AttributeEdges(reg, attributes)
    decreases |attributes| - i
  {
    if i == |attributes| {
      assert attributes[..i] == attributes;
    } else {
      AttributePrefix(reg, attributes, i + 1);
      assert attributes[..i + 1][..i] == attributes[..i];
    }
  }

  lemma {:induction false} ChildPrefix(reg: Registry, t: TypeId, j: nat)
    requires j <= |reg.types|
    ensures ChildEdges(reg, t, j) <= ChildEdges(reg, t, |reg.types|)
    ensures j == 0 ==> ChildEdges(reg, t, j) == []
    ensures j < |reg.types| ==>
      ChildEdges(reg, t, j + 1) == ChildEdges(reg, t, j) + ChildEdge(reg, t, j)
      && ChildEdges(reg, t, j + 1) <= ChildEdges(reg, t, |reg.types|)
    decreases |reg.types| - j
  {
    if j < |reg.types| { ChildPrefix(reg, t, j + 1); }
  }

  lemma {:induction false} AggregatePrefix(reg: Registry, t: TypeId, aggregates: seq<(TypeId, TypeId)>, k: nat)
    requires WfGraph(reg, aggregates) && k <= |aggregates|
    ensures WfGraph(reg, aggregates[..k])
    ensures AggregateEdges(reg, t, aggregates[..k]) <= AggregateEdges(reg, t, aggregates)
    ensures k == 0 ==> AggregateEdges(reg, t, aggregates[..k]) == []
    ensures k < |aggregates| ==>
      WfGraph(reg, aggregates[..k + 1])
      && AggregateEdges(reg, t, aggregates[..k + 1])
         == AggregateEdges(reg, t, aggregates[..k]) + AggregateEdge(reg, t, aggregates[k])
      && AggregateEdges(reg, t, aggregates[..k + 1]) <= AggregateEdges(reg, t, aggregates)
    decreases |aggregates| - k
  {
    if k == |aggregates| {
      assert aggregates[..k] == aggregates;
    } else {
      AggregatePrefix(reg, t, aggregates, k + 1);
      assert aggregates[..k + 1][..k] == aggregates[..k];
    }
  }
}
