/** When the results of utils/print-introspected-doxygen.cc hold an entry twice.
The caller asks for uniqueness, but Uniquefy works on a copy. */
module TypePaths {
  import opened TypeGraph
  import opened TypeGatherer

  // ---------- Names ----------

  predicate NoSlash(s: string) { '/' !in s }

  /** Type names differ, attribute names of a type differ, and none can be taken
      for a path, for the index of a container or for a link to a type. */
  predicate WellNamed(reg: Registry) {
    && (forall t :: 0 <= t < |reg.types| ==> NoSlash(reg.types[t].name) && AttributesNamed(reg.types[t].attributes))
    && (forall t, u :: 0 <= t < u < |reg.types| ==> reg.types[t].name != reg.types[u].name)
  }

  predicate AttributesNamed(attributes: seq<Attribute>) {
    && (forall i :: 0 <= i < |attributes| ==>
          NoSlash(attributes[i].name) && attributes[i].name != "[i]" && !("$" <= attributes[i].name))
    && (forall i, j :: 0 <= i < j < |attributes| ==> attributes[i].name != attributes[j].name)
  }

  const INDEX := "/[i]"

  /** A container's name is that of its attribute, with the index behind it. */
  predicate Indexed(name: string) {
    |name| >= 4 && name[|name| - 4..] == INDEX && NoSlash(name[..|name| - 4])
  }

  predicate GoodName(name: string) { (NoSlash(name) && name != "[i]") || Indexed(name) }

  predicate GoodNames(path: seq<string>) { forall i :: 0 <= i < |path| ==> GoodName(path[i]) }

  // ---------- A path can be read off its text ----------

  lemma LastSlash(x: string, a: string, y: string, b: string)
    requires x + "/" + a == y + "/" + b && NoSlash(a) && NoSlash(b)
    ensures x == y && a == b
  {
    var s := x + "/" + a;
    SlashPlace(x, a);
    SlashPlace(y, b);
    assert s[..|x|] == x && (y + "/" + b)[..|y|] == y;
    assert s[|x| + 1..] == a && (y + "/" + b)[|y| + 1..] == b;
  }

  lemma SlashPlace(x: string, a: string)
    requires NoSlash(a)
    ensures var s := x + "/" + a; s[|x|] == '/' && forall k :: |x| < k < |s| ==> s[k] != '/'
  {
    var s := x + "/" + a;
    forall k | |x| < k < |s| ensures s[k] != '/' { assert s[k] == a[k - |x| - 1]; }
  }

  lemma LastName(x: string, a: string, y: string, b: string)
    requires x + "/" + a == y + "/" + b && GoodName(a) && GoodName(b)
    ensures x == y && a == b
  {
    if NoSlash(a) && NoSlash(b) {
      LastSlash(x, a, y, b);
    } else if NoSlash(b) {
      IndexSplit(x, a);
      LastSlash(x + "/" + a[..|a| - 4], "[i]", y, b);
    } else if NoSlash(a) {
      IndexSplit(y, b);
      LastSlash(x, a, y + "/" + b[..|b| - 4], "[i]");
    } else {
      IndexSplit(x, a);
      IndexSplit(y, b);
      var a', b' := a[..|a| - 4], b[..|b| - 4];
      LastSlash(x + "/" + a', "[i]", y + "/" + b', "[i]");
      LastSlash(x, a', y, b');
      assert a == a' + INDEX && b == b' + INDEX;
    }
  }

  lemma IndexSplit(x: string, a: string)
    requires Indexed(a)
    ensures x + "/" + a == x + "/" + a[..|a| - 4] + "/" + "[i]"
  {
    assert a == a[..|a| - 4] + INDEX;
  }

  lemma {:induction false} PathIsReadable(p: seq<string>, q: seq<string>)
    requires GoodNames(p) && GoodNames(q) && PathString(p) == PathString(q)
    ensures p == q
  {
    if p != [] && q != [] {
      var p', a := p[..|p| - 1], p[|p| - 1];
      var q', b := q[..|q| - 1], q[|q| - 1];
      LastName(PathString(p'), a, PathString(q'), b);
      PathIsReadable(p', q');
      assert p == p' + [a] && q == q' + [b];
    }
  }

  /** A path is joined element by element, each behind a slash. */
  lemma {:induction false} PathStringJoins(p: seq<string>, q: seq<string>)
    ensures PathString(p + q) == PathString(p) + PathString(q)
    decreases |q|
  {
    hide PathString;
    if q == [] {
      assert p + q == p;
      PathStringEnds([], "");
    } else {
      var front, last := q[..|q| - 1], q[|q| - 1];
      PathStringJoins(p, front);
      assert p + q == (p + front) + [last] && q == front + [last];
      PathStringEnds(p + front, last);
      PathStringEnds(front, last);
      JoinLater(PathString(p), PathString(front), "/" + last);
    }
  }

  lemma PathStringEnds(p: seq<string>, name: string)
    ensures PathString([]) == "" && PathString([name]) == "/" + name
    ensures PathString(p + [name]) == PathString(p) + ("/" + name)
  {
    assert (p + [name])[..|p|] == p && [name][..0] == [];
    JoinLater(PathString(p), "/", name);
  }

  /** Selecting the paths of a type: entry by entry, in order. */
  lemma {:induction false} PathsOfJoins(a: seq<(TypeId, string)>, b: seq<(TypeId, string)>, t: TypeId)
    ensures PathsOf([], t) == []
    ensures |b| == 1 ==> PathsOf(b, t) == if b[0].0 == t then [b[0].1] else []
    ensures PathsOf(a + b, t) == PathsOf(a, t) + PathsOf(b, t)
    decreases |b|
  {
    if b == [] {
      assert a + b == a;
    } else {
      var front := b[..|b| - 1];
      PathsOfJoins(a, front, t);
      assert (a + b)[..|a + b| - 1] == a + front;
      if |b| == 1 { assert front == []; }
    }
  }

  // ---------- Edges ----------

  /** An edge to a child or an aggregate is named after its target. */
  predicate IsLink(reg: Registry, e: Edge) {
    e.target < |reg.types| && e.name == "$" + reg.types[e.target].name
  }

  /** The edge comes from attribute number a. */
  predicate FromAttribute(reg: Registry, attributes: seq<Attribute>, a: nat, e: Edge) {
    a < |attributes| && AttributeEdge(reg, attributes[a]) == [e]
  }

  lemma {:induction false} AttributeOrigin(reg: Registry, attributes: seq<Attribute>, i: nat) returns (a: nat)
    requires i < |AttributeEdges(reg, attributes)|
    ensures FromAttribute(reg, attributes, a, AttributeEdges(reg, attributes)[i])
  {
    var front, last := attributes[..|attributes| - 1], |attributes| - 1;
    if i < |AttributeEdges(reg, front)| { a := AttributeOrigin(reg, front, i); } else { a := last; }
  }

  lemma {:induction false} ChildOrigin(reg: Registry, t: TypeId, n: nat, i: nat)
    requires n <= |reg.types| && i < |ChildEdges(reg, t, n)|
    ensures IsLink(reg, ChildEdges(reg, t, n)[i])
  {
    if i < |ChildEdges(reg, t, n - 1)| { ChildOrigin(reg, t, n - 1, i); }
  }

  lemma {:induction false} AggregateOrigin(reg: Registry, t: TypeId, aggregates: seq<(TypeId, TypeId)>, i: nat)
    requires WfGraph(reg, aggregates) && i < |AggregateEdges(reg, t, aggregates)|
    ensures IsLink(reg, AggregateEdges(reg, t, aggregates)[i])
  {
    var front := aggregates[..|aggregates| - 1];
    if i < |AggregateEdges(reg, t, front)| { AggregateOrigin(reg, t, front, i); }
  }

  lemma EdgeOrigin(reg: Registry, aggregates: seq<(TypeId, TypeId)>, t: TypeId, i: nat) returns (a: nat)
    requires WfGraph(reg, aggregates) && t < |reg.types| && i < |Edges(reg, aggregates, t)|
    ensures var e := Edges(reg, aggregates, t)[i];
      IsLink(reg, e) || FromAttribute(reg, reg.types[t].attributes, a, e)
  {
    hide AttributeEdges, ChildEdges, AggregateEdges, IsLink, FromAttribute;
    var n := |AttributeEdges(reg, reg.types[t].attributes)|;
    var m := |ChildEdges(reg, t, |reg.types|)|;
    a := 0;
    if i < n { a := AttributeOrigin(reg, reg.types[t].attributes, i); }
    else if i < n + m { ChildOrigin(reg, t, |reg.types|, i - n); }
    else { AggregateOrigin(reg, t, aggregates, i - n - m); }
  }

  lemma LinkIsGood(reg: Registry, e: Edge)
    requires WellNamed(reg) && IsLink(reg, e)
    ensures GoodName(e.name) && "$" <= e.name
  {
    assert e.name[0] == '$' && "[i]"[0] != '$';
  }

  lemma AttributeIsGood(reg: Registry, attributes: seq<Attribute>, a: nat, e: Edge)
    requires AttributesNamed(attributes) && FromAttribute(reg, attributes, a, e)
    ensures GoodName(e.name) && !("$" <= e.name)
    ensures e.name == attributes[a].name || e.name == attributes[a].name + INDEX
  {
    var name := attributes[a].name;
    var long := name + INDEX;
    assert long[|name|..] == INDEX && long[..|name|] == name;
    assert long[0] != '$' by { if name == "" { assert long == INDEX; } else { assert long[0] == name[0]; } }
  }

  /** Edges of one type with the same name have the same target. */
  lemma SameNameSameTarget(reg: Registry, aggregates: seq<(TypeId, TypeId)>, t: TypeId, i: nat, j: nat)
    requires WfGraph(reg, aggregates) && WellNamed(reg) && t < |reg.types|
    requires i < |Edges(reg, aggregates, t)| && j < |Edges(reg, aggregates, t)|
    ensures var edges := Edges(reg, aggregates, t);
      GoodName(edges[i].name) && (edges[i].name == edges[j].name ==> edges[i] == edges[j])
  {
    hide Edges, WfGraph, GoodName, IsLink, FromAttribute, WellNamed, AttributesNamed;
    var attributes := reg.types[t].attributes;
    var d, e := Edges(reg, aggregates, t)[i], Edges(reg, aggregates, t)[j];
    var a := EdgeOrigin(reg, aggregates, t, i);
    var b := EdgeOrigin(reg, aggregates, t, j);
    AttributesOf(reg, t);
    if IsLink(reg, d) { LinkIsGood(reg, d); } else { AttributeIsGood(reg, attributes, a, d); }
    if IsLink(reg, e) { LinkIsGood(reg, e); } else { AttributeIsGood(reg, attributes, b, e); }
    if d.name == e.name {
      if IsLink(reg, d) { LinksByName(reg, d, e); } else { AttributesByName(reg, attributes, a, b, d, e); }
    }
  }

  lemma AttributesOf(reg: Registry, t: TypeId)
    requires WellNamed(reg) && t < |reg.types|
    ensures AttributesNamed(reg.types[t].attributes)
  {
    hide AttributesNamed;
  }

  lemma LinksByName(reg: Registry, d: Edge, e: Edge)
    requires WellNamed(reg) && IsLink(reg, d) && IsLink(reg, e) && d.name == e.name
    ensures d == e
  {
    hide AttributesNamed;
    assert d.name[1..] == reg.types[d.target].name && e.name[1..] == reg.types[e.target].name;
  }

  lemma AttributesByName(reg: Registry, attributes: seq<Attribute>, a: nat, b: nat, d: Edge, e: Edge)
    requires AttributesNamed(attributes) && d.name == e.name
    requires FromAttribute(reg, attributes, a, d) && FromAttribute(reg, attributes, b, e)
    ensures d == e
  {
    AttributeIsGood(reg, attributes, a, d);
    AttributeIsGood(reg, attributes, b, e);
    var p, q := attributes[a].name, attributes[b].name;
    assert (p + INDEX)[..|p|] == p && (q + INDEX)[..|q|] == q && (p + INDEX)[|p|] == '/' == (q + INDEX)[|q|];
    assert p == q;
    assert a == b;
  }

  // ---------- Entries ----------

  predicate AllDifferent<T(==)>(s: seq<T>) { forall i, j :: 0 <= i < j < |s| ==> s[i] != s[j] }

  /** No type links twice to the same other type, be it as child or aggregate. */
  predicate NoDoubleLink(reg: Registry, aggregates: seq<(TypeId, TypeId)>)
    requires WfGraph(reg, aggregates)
  {
    forall t :: 0 <= t < |reg.types| ==> LinksOnce(Edges(reg, aggregates, t), t)
  }

  predicate LinksOnce(edges: seq<Edge>, t: TypeId) {
    forall i, j :: 0 <= i < j < |edges| && edges[i] == edges[j] ==> edges[i].target == t
  }

  /** Every edge of a graph has a good name that fixes it, except that a
      self-loop may be there more than once. */
  predicate Labelled(g: Graph) {
    forall t :: 0 <= t < |g.out| ==>
      LinksOnce(g.out[t], t) &&
      forall i, j :: 0 <= i < |g.out[t]| && 0 <= j < |g.out[t]| ==>
        GoodName(g.out[t][i].name) && (g.out[t][i].name == g.out[t][j].name ==> g.out[t][i] == g.out[t][j])
  }

  lemma {:induction false} NamesAreGood(g: Graph, t: TypeId, trail: Trail)
    requires Labelled(g)
    ensures GoodNames(NamesOn(g, t, trail))
    decreases |trail|
  {
    hide GoodName;
    if trail != [] && t < |g.out| && trail[0] < |g.out[t]| {
      NamesAreGood(g, g.out[t][trail[0]].target, trail[1..]);
    }
  }

  /** In such a graph the names along a path determine the path. */
  lemma {:induction false} NamesFixTrail(g: Graph, visited: set<TypeId>, t: TypeId, p: Trail, q: Trail)
    requires g.Closed() && Labelled(g) && t < |g.out|
    requires SimpleTrail(g, visited, t, p) && SimpleTrail(g, visited, t, q)
    requires NamesOn(g, t, p) == NamesOn(g, t, q)
    ensures p == q
    decreases |p|
  {
    hide SimpleTrail, GoodName;
    TrailsAreWalks(g, visited, t, p);
    TrailsAreWalks(g, visited, t, q);
    EndIsLastStop(g, t, p);
    EndIsLastStop(g, t, q);
    if p != [] {
      SimpleStep(g, visited, t, p);
      SimpleStep(g, visited, t, q);
      var e := g.out[t][p[0]];
      assert NamesOn(g, t, p)[0] == e.name && NamesOn(g, t, q)[0] == g.out[t][q[0]].name;
      assert e == g.out[t][q[0]];
      NotBack(g, visited + {t}, e.target, p[1..]);
      assert LinksOnce(g.out[t], t);
      assert p[0] == q[0];
      assert NamesOn(g, t, p)[1..] == NamesOn(g, e.target, p[1..]);
      assert NamesOn(g, t, q)[1..] == NamesOn(g, e.target, q[1..]);
      NamesFixTrail(g, visited + {t}, e.target, p[1..], q[1..]);
      assert p == [p[0]] + p[1..] && q == [q[0]] + q[1..];
    }
  }

  lemma TrailsAreWalks(g: Graph, visited: set<TypeId>, t: TypeId, p: Trail)
    requires SimpleTrail(g, visited, t, p)
    ensures Walk(g, t, p)
  {}

  lemma NotBack(g: Graph, visited: set<TypeId>, t: TypeId, p: Trail)
    requires SimpleTrail(g, visited, t, p)
    ensures t !in visited
  {
    assert Stops(g, t, p)[0] == t;
  }

  lemma GraphIsLabelled(reg: Registry, aggregates: seq<(TypeId, TypeId)>)
    requires WfGraph(reg, aggregates) && WellNamed(reg) && NoDoubleLink(reg, aggregates)
    ensures Labelled(GraphOf(reg, aggregates))
  {
    hide WfGraph, WellNamed, Edges, GoodName, LinksOnce;
    var g := GraphOf(reg, aggregates);
    forall t, i, j | 0 <= t < |g.out| && 0 <= i < |g.out[t]| && 0 <= j < |g.out[t]|
      ensures GoodName(g.out[t][i].name) && (g.out[t][i].name == g.out[t][j].name ==> g.out[t][i] == g.out[t][j])
    {
      SameNameSameTarget(reg, aggregates, t, i, j);
    }
  }

  lemma RootEntriesDiffer(reg: Registry, aggregates: seq<(TypeId, TypeId)>, root: TypeId)
    requires WfGraph(reg, aggregates) && WellNamed(reg) && NoDoubleLink(reg, aggregates) && root < |reg.types|
    ensures AllDifferent(EntriesFrom(reg, aggregates, root))
  {
    hide WfGraph, WellNamed, NoDoubleLink, Labelled, Trails, Walk, Stops, Distinct, NamesOn, PathString, EndOf, GraphOf;
    GraphIsClosed(reg, aggregates);
    GraphIsLabelled(reg, aggregates);
    var g := GraphOf(reg, aggregates);
    var trails := Trails(g, {}, root);
    EnumerationIsExact(g, root);
    var entries := EntriesFrom(reg, aggregates, root);
    forall i, j | 0 <= i < j < |entries| ensures entries[i] != entries[j] {
      var p, q := trails[i], trails[j];
      assert p in trails && q in trails && p != q;
      if entries[i] == entries[j] {
        assert [] + NamesOn(g, root, p) == NamesOn(g, root, p) && [] + NamesOn(g, root, q) == NamesOn(g, root, q);
        NamesAreGood(g, root, p);
        NamesAreGood(g, root, q);
        PathIsReadable(NamesOn(g, root, p), NamesOn(g, root, q));
        NamesFixTrail(g, {}, root, p, q);
      }
    }
  }

  /** A double link is recorded twice from its own type. */
  lemma DoubleLinkIsDoubleEntry(reg: Registry, aggregates: seq<(TypeId, TypeId)>, t: TypeId, i: nat, j: nat)
    requires WfGraph(reg, aggregates) && t < |reg.types| && i < j < |Edges(reg, aggregates, t)|
    requires Edges(reg, aggregates, t)[i] == Edges(reg, aggregates, t)[j]
    requires Edges(reg, aggregates, t)[i].target != t
    ensures !AllDifferent(EntriesFrom(reg, aggregates, t))
  {
    hide WfGraph, Trails, Edges;
    GraphIsClosed(reg, aggregates);
    var g := GraphOf(reg, aggregates);
    var trails := Trails(g, {}, t);
    var p, q: Trail := [i], [j];
    EnumerationIsExact(g, t);
    OneStep(g, t, i);
    OneStep(g, t, j);
    assert p in trails && q in trails;
    var a :| 0 <= a < |trails| && trails[a] == p;
    var b :| 0 <= b < |trails| && trails[b] == q;
    assert p[0] != q[0];
    var entries := EntriesFrom(reg, aggregates, t);
    assert entries[a] == entries[b];
  }

  lemma OneStep(g: Graph, t: TypeId, i: nat)
    requires g.Closed() && t < |g.out| && i < |g.out[t]| && g.out[t][i].target != t
    ensures Walk(g, t, [i]) && Distinct(Stops(g, t, [i]))
    ensures Entry(g, t, [], [i]) == (g.out[t][i].target, PathString([] + [g.out[t][i].name]))
  {
    var u := g.out[t][i].target;
    assert [i][1..] == [];
    assert Stops(g, u, []) == [u];
    assert Stops(g, t, [i]) == [t] + [u];
    assert NamesOn(g, t, [i]) == [g.out[t][i].name] + NamesOn(g, u, []) == [g.out[t][i].name];
    assert EndOf(g, t, [i]) == EndOf(g, u, []) == u;
    assert [] + NamesOn(g, t, [i]) == [g.out[t][i].name] == [] + [g.out[t][i].name];
  }

  /** In a well-named registry, no entry is recorded twice from any one root if
      and only if no type links twice to the same other type. */
  lemma NoDuplicatesExactlyWhen(reg: Registry, aggregates: seq<(TypeId, TypeId)>)
    requires WfGraph(reg, aggregates) && WellNamed(reg)
    ensures (forall root :: 0 <= root < |reg.types| ==> AllDifferent(EntriesFrom(reg, aggregates, root)))
            <==> NoDoubleLink(reg, aggregates)
  {
    hide WfGraph, WellNamed, AllDifferent, EntriesFrom, Edges;
    if NoDoubleLink(reg, aggregates) {
      forall root | 0 <= root < |reg.types| ensures AllDifferent(EntriesFrom(reg, aggregates, root)) {
        RootEntriesDiffer(reg, aggregates, root);
      }
    } else {
      var t: nat :| t < |reg.types| && !LinksOnce(Edges(reg, aggregates, t), t);
      var i, j :| 0 <= i < j < |Edges(reg, aggregates, t)|
                  && Edges(reg, aggregates, t)[i] == Edges(reg, aggregates, t)[j]
                  && Edges(reg, aggregates, t)[i].target != t;
      DoubleLinkIsDoubleEntry(reg, aggregates, t, i, j);
    }
  }

  // ---------- Several roots ----------

  lemma {:induction false} EntryOfRoot(reg: Registry, aggregates: seq<(TypeId, TypeId)>, roots: seq<TypeId>, r: nat,
                                       x: (TypeId, string))
    requires WfGraph(reg, aggregates) && AreTypes(reg, roots) && r < |roots|
    requires x in EntriesFrom(reg, aggregates, roots[r])
    ensures x in EntriesOfAll(reg, aggregates, roots)
  {
    hide WfGraph, EntriesFrom;
    if r < |roots| - 1 { EntryOfRoot(reg, aggregates, roots[..|roots| - 1], r, x); }
  }

  lemma {:induction false} RootOfEntry(reg: Registry, aggregates: seq<(TypeId, TypeId)>, roots: seq<TypeId>,
                                       x: (TypeId, string)) returns (r: nat)
    requires WfGraph(reg, aggregates) && AreTypes(reg, roots) && x in EntriesOfAll(reg, aggregates, roots)
    ensures r < |roots| && x in EntriesFrom(reg, aggregates, roots[r])
  {
    hide WfGraph, EntriesFrom;
    r := |roots| - 1;
    if x !in EntriesFrom(reg, aggregates, roots[r]) { r := RootOfEntry(reg, aggregates, roots[..r], x); }
  }

  lemma DifferentParts<T>(a: seq<T>, b: seq<T>)
    ensures AllDifferent(a + b) <==> AllDifferent(a) && AllDifferent(b) && forall x :: x in a ==> x !in b
  {
    var s := a + b;
    if AllDifferent(s) {
      forall i, j | 0 <= i < j < |a| ensures a[i] != a[j] { assert s[i] == a[i] && s[j] == a[j]; }
      forall i, j | 0 <= i < j < |b| ensures b[i] != b[j] { assert s[|a| + i] == b[i] && s[|a| + j] == b[j]; }
      forall i, j | 0 <= i < |a| && 0 <= j < |b| ensures a[i] != b[j] { assert s[i] == a[i] && s[|a| + j] == b[j]; }
    }
    if AllDifferent(a) && AllDifferent(b) && forall x :: x in a ==> x !in b {
      forall i, j | 0 <= i < j < |s| ensures s[i] != s[j] {
        if i < |a| <= j { assert s[i] in a && s[j] in b; }
      }
    }
  }

  /** What two places of the list both record is recorded twice. */
  lemma {:induction false} CommonEntry(reg: Registry, aggregates: seq<(TypeId, TypeId)>, roots: seq<TypeId>, r: nat,
                                       s: nat, x: (TypeId, string))
    requires WfGraph(reg, aggregates) && AreTypes(reg, roots) && r < s < |roots|
    requires x in EntriesFrom(reg, aggregates, roots[r]) && x in EntriesFrom(reg, aggregates, roots[s])
    ensures !AllDifferent(EntriesOfAll(reg, aggregates, roots))
  {
    hide WfGraph, EntriesFrom, AllDifferent;
    var front := roots[..|roots| - 1];
    DifferentParts(EntriesOfAll(reg, aggregates, front), EntriesFrom(reg, aggregates, roots[|roots| - 1]));
    if s < |roots| - 1 {
      CommonEntry(reg, aggregates, front, r, s, x);
    } else {
      EntryOfRoot(reg, aggregates, front, r, x);
    }
  }

  /** Every root records itself, under the empty path. */
  lemma RootItself(reg: Registry, aggregates: seq<(TypeId, TypeId)>, root: TypeId)
    requires WfGraph(reg, aggregates) && root < |reg.types|
    ensures (root, "") in EntriesFrom(reg, aggregates, root)
  {
    hide WfGraph, TrailsVia;
    GraphIsClosed(reg, aggregates);
    var g := GraphOf(reg, aggregates);
    assert Trails(g, {}, root)[0] == [];
    assert Entry(g, root, [], []) == (root, "");
    assert EntriesFrom(reg, aggregates, root)[0] == (root, "");
  }

  /** No two types have an edge in common, unless it leads back to one of them. */
  predicate NoSharedLink(reg: Registry, aggregates: seq<(TypeId, TypeId)>)
    requires WfGraph(reg, aggregates)
  {
    forall t, u :: 0 <= t < |reg.types| && 0 <= u < |reg.types| && t != u ==>
      NothingShared(Edges(reg, aggregates, t), Edges(reg, aggregates, u), t, u)
  }

  predicate NothingShared(a: seq<Edge>, b: seq<Edge>, t: TypeId, u: TypeId) {
    forall i, j :: 0 <= i < |a| && 0 <= j < |b| && a[i] == b[j] ==> a[i].target == t || a[i].target == u
  }

  predicate Separated(g: Graph) {
    forall t, u :: 0 <= t < |g.out| && 0 <= u < |g.out| && t != u ==> NothingShared(g.out[t], g.out[u], t, u)
  }

  /** Then paths from different types with the same names end at different types. */
  lemma {:induction false} EndsDiffer(g: Graph, v: set<TypeId>, w: set<TypeId>, t: TypeId, u: TypeId, p: Trail, q: Trail)
    requires g.Closed() && Separated(g) && t < |g.out| && u < |g.out| && t != u
    requires SimpleTrail(g, v, t, p) && SimpleTrail(g, w, u, q) && NamesOn(g, t, p) == NamesOn(g, u, q)
    ensures EndOf(g, t, p) != EndOf(g, u, q)
    decreases |p|
  {
    hide SimpleTrail;
    TrailsAreWalks(g, v, t, p);
    TrailsAreWalks(g, w, u, q);
    EndIsLastStop(g, t, p);
    EndIsLastStop(g, u, q);
    if p != [] {
      SimpleStep(g, v, t, p);
      SimpleStep(g, w, u, q);
      var d, e := g.out[t][p[0]], g.out[u][q[0]];
      assert NamesOn(g, t, p)[0] == d.name && NamesOn(g, u, q)[0] == e.name;
      NotBack(g, v + {t}, d.target, p[1..]);
      NotBack(g, w + {u}, e.target, q[1..]);
      assert NothingShared(g.out[t], g.out[u], t, u);
      assert d.target != e.target;
      assert NamesOn(g, t, p)[1..] == NamesOn(g, d.target, p[1..]);
      assert NamesOn(g, u, q)[1..] == NamesOn(g, e.target, q[1..]);
      EndsDiffer(g, v + {t}, w + {u}, d.target, e.target, p[1..], q[1..]);
    }
  }

  /** An entry is what some simple trail of the root records. */
  lemma TrailOfEntry(reg: Registry, aggregates: seq<(TypeId, TypeId)>, root: TypeId, x: (TypeId, string))
    returns (p: Trail)
    requires WfGraph(reg, aggregates) && root < |reg.types| && x in EntriesFrom(reg, aggregates, root)
    ensures var g := GraphOf(reg, aggregates);
      SimpleTrail(g, {}, root, p) && x == (EndOf(g, root, p), PathString(NamesOn(g, root, p)))
  {
    hide WfGraph, Trails, SimpleTrail, GraphOf;
    GraphIsClosed(reg, aggregates);
    var g := GraphOf(reg, aggregates);
    var trails := Trails(g, {}, root);
    var i :| 0 <= i < |trails| && EntriesFrom(reg, aggregates, root)[i] == x;
    p := trails[i];
    assert p in trails;
    TrailsExact(g, {}, root, p);
    assert [] + NamesOn(g, root, p) == NamesOn(g, root, p);
  }

  lemma GraphIsSeparated(reg: Registry, aggregates: seq<(TypeId, TypeId)>)
    requires WfGraph(reg, aggregates) && NoSharedLink(reg, aggregates)
    ensures Separated(GraphOf(reg, aggregates))
  {
    hide WfGraph, Edges, NothingShared;
  }

  lemma RootsRecordApart(reg: Registry, aggregates: seq<(TypeId, TypeId)>, t: TypeId, u: TypeId, x: (TypeId, string))
    requires WfGraph(reg, aggregates) && WellNamed(reg) && NoDoubleLink(reg, aggregates)
    requires NoSharedLink(reg, aggregates) && t < |reg.types| && u < |reg.types| && t != u
    requires x in EntriesFrom(reg, aggregates, t)
    ensures x !in EntriesFrom(reg, aggregates, u)
  {
    hide WfGraph, WellNamed, NoDoubleLink, NoSharedLink, EntriesFrom, Labelled, Separated, SimpleTrail, GraphOf;
    if x in EntriesFrom(reg, aggregates, u) {
      var g := GraphOf(reg, aggregates);
      GraphSize(reg, aggregates);
      GraphIsClosed(reg, aggregates);
      GraphIsLabelled(reg, aggregates);
      GraphIsSeparated(reg, aggregates);
      var p := TrailOfEntry(reg, aggregates, t, x);
      var q := TrailOfEntry(reg, aggregates, u, x);
      NamesAreGood(g, t, p);
      NamesAreGood(g, u, q);
      PathIsReadable(NamesOn(g, t, p), NamesOn(g, u, q));
      EndsDiffer(g, {}, {}, t, u, p, q);
    }
  }

  lemma GraphSize(reg: Registry, aggregates: seq<(TypeId, TypeId)>)
    requires WfGraph(reg, aggregates)
    ensures |GraphOf(reg, aggregates).out| == |reg.types|
  {}

  lemma {:induction false} DifferentRoots(reg: Registry, aggregates: seq<(TypeId, TypeId)>, roots: seq<TypeId>)
    requires WfGraph(reg, aggregates) && WellNamed(reg) && NoDoubleLink(reg, aggregates)
    requires NoSharedLink(reg, aggregates) && AreTypes(reg, roots) && AllDifferent(roots)
    ensures AllDifferent(EntriesOfAll(reg, aggregates, roots))
  {
    hide WfGraph, WellNamed, NoDoubleLink, NoSharedLink, EntriesFrom;
    if roots != [] {
      var front, last := roots[..|roots| - 1], roots[|roots| - 1];
      DifferentRoots(reg, aggregates, front);
      RootEntriesDiffer(reg, aggregates, last);
      forall x | x in EntriesOfAll(reg, aggregates, front) ensures x !in EntriesFrom(reg, aggregates, last) {
        var r := RootOfEntry(reg, aggregates, front, x);
        RootsRecordApart(reg, aggregates, front[r], last, x);
      }
      DifferentParts(EntriesOfAll(reg, aggregates, front), EntriesFrom(reg, aggregates, last));
    }
  }

  /** An edge to another type gives an entry. */
  lemma EdgeEntry(reg: Registry, aggregates: seq<(TypeId, TypeId)>, t: TypeId, i: nat)
    requires WfGraph(reg, aggregates) && t < |reg.types| && i < |Edges(reg, aggregates, t)|
    requires Edges(reg, aggregates, t)[i].target != t
    ensures var e := Edges(reg, aggregates, t)[i];
      (e.target, PathString([] + [e.name])) in EntriesFrom(reg, aggregates, t)
  {
    hide WfGraph, Trails, Edges, Walk, Stops, Entry;
    GraphIsClosed(reg, aggregates);
    var g := GraphOf(reg, aggregates);
    var trails := Trails(g, {}, t);
    EnumerationIsExact(g, t);
    OneStep(g, t, i);
    assert [i] in trails;
    var a :| 0 <= a < |trails| && trails[a] == [i];
    assert EntriesFrom(reg, aggregates, t)[a] == Entry(g, t, [], [i]);
  }

  ghost predicate OnceEach(reg: Registry, aggregates: seq<(TypeId, TypeId)>, roots: seq<TypeId>)
    requires WfGraph(reg, aggregates)
  {
    AreTypes(reg, roots) ==> (AllDifferent(EntriesOfAll(reg, aggregates, roots)) <==> AllDifferent(roots))
  }

  lemma RepeatedRoot(reg: Registry, aggregates: seq<(TypeId, TypeId)>, roots: seq<TypeId>)
    requires WfGraph(reg, aggregates) && AreTypes(reg, roots) && !AllDifferent(roots)
    ensures !AllDifferent(EntriesOfAll(reg, aggregates, roots))
  {
    hide WfGraph, EntriesFrom, EntriesOfAll;
    var r, s :| 0 <= r < s < |roots| && roots[r] == roots[s];
    RootItself(reg, aggregates, roots[r]);
    CommonEntry(reg, aggregates, roots, r, s, (roots[r], ""));
  }

  lemma SharedLinkIsDoubleEntry(reg: Registry, aggregates: seq<(TypeId, TypeId)>, t: TypeId, u: TypeId)
    requires WfGraph(reg, aggregates) && t < |reg.types| && u < |reg.types| && t != u
    requires !NothingShared(Edges(reg, aggregates, t), Edges(reg, aggregates, u), t, u)
    ensures AllDifferent([t, u]) && !AllDifferent(EntriesOfAll(reg, aggregates, [t, u]))
  {
    hide WfGraph, EntriesFrom, EntriesOfAll, Edges;
    var a, b := Edges(reg, aggregates, t), Edges(reg, aggregates, u);
    var i, j :| 0 <= i < |a| && 0 <= j < |b| && a[i] == b[j] && a[i].target != t && a[i].target != u;
    EdgeEntry(reg, aggregates, t, i);
    EdgeEntry(reg, aggregates, u, j);
    CommonEntry(reg, aggregates, [t, u], 0, 1, (a[i].target, PathString([] + [a[i].name])));
  }

  /** In a well-named registry: whichever roots are gathered one after the other,
      nothing is recorded twice just as long as no root is repeated, if and only
      if no type links twice to the same other type and no two types have an edge
      to a third in common. */
  lemma GatheredOnceExactlyWhen(reg: Registry, aggregates: seq<(TypeId, TypeId)>)
    requires WfGraph(reg, aggregates) && WellNamed(reg)
    ensures (forall roots: seq<TypeId> :: OnceEach(reg, aggregates, roots))
            <==> NoDoubleLink(reg, aggregates) && NoSharedLink(reg, aggregates)
  {
    hide WfGraph, WellNamed, AllDifferent, EntriesFrom, EntriesOfAll, Edges, LinksOnce, NothingShared;
    if NoDoubleLink(reg, aggregates) && NoSharedLink(reg, aggregates) {
      forall roots: seq<TypeId> ensures OnceEach(reg, aggregates, roots) {
        if AreTypes(reg, roots) {
          if AllDifferent(roots) { DifferentRoots(reg, aggregates, roots); } else { RepeatedRoot(reg, aggregates, roots); }
        }
      }
    } else if !NoDoubleLink(reg, aggregates) {
      NoDuplicatesExactlyWhen(reg, aggregates);
      var t: nat :| t < |reg.types| && !AllDifferent(EntriesFrom(reg, aggregates, t));
      OneRoot(reg, aggregates, t);
      assert !OnceEach(reg, aggregates, [t]);
    } else {
      var t: nat, u: nat :| t < |reg.types| && u < |reg.types| && t != u
                            && !NothingShared(Edges(reg, aggregates, t), Edges(reg, aggregates, u), t, u);
      SharedLinkIsDoubleEntry(reg, aggregates, t, u);
      assert !OnceEach(reg, aggregates, [t, u]);
    }
  }

  lemma OneRoot(reg: Registry, aggregates: seq<(TypeId, TypeId)>, t: TypeId)
    requires WfGraph(reg, aggregates) && t < |reg.types|
    ensures AllDifferent([t]) && EntriesOfAll(reg, aggregates, [t]) == EntriesFrom(reg, aggregates, t)
  {
    hide WfGraph, EntriesFrom;
    assert [t][..0] == [];
    assert EntriesOfAll(reg, aggregates, []) == [];
  }

  // ---------- Registries with double entries ----------

  /** Type A with child B that is also aggregated to it. */
  const FAMILY := Registry([TypeInfo("A", []), TypeInfo("B", [])], {(1, 0)}, 2)

  lemma FamilyNames()
    ensures WfGraph(FAMILY, [(0, 1)]) && WellNamed(FAMILY)
  {}

  lemma FamilyEdges()
    requires WfGraph(FAMILY, [(0, 1)])
    ensures Edges(FAMILY, [(0, 1)], 0) == [Edge("$B", 1), Edge("$B", 1)]
  {
    hide WfGraph;
    assert "$" + "B" == "$B";
    assert ChildEdges(FAMILY, 0, 1) == ChildEdges(FAMILY, 0, 0) + [] == [];
    assert ChildEdges(FAMILY, 0, 2) == ChildEdges(FAMILY, 0, 1) + [Edge("$B", 1)];
    assert [(0, 1)][..0] == [];
    assert AggregateEdges(FAMILY, 0, [(0, 1)]) == [] + [Edge("$B", 1)];
  }

  lemma ChildAndAggregate()
    ensures WfGraph(FAMILY, [(0, 1)]) && WellNamed(FAMILY)
    ensures !AllDifferent(EntriesFrom(FAMILY, [(0, 1)], 0))
  {
    hide EntriesFrom, AllDifferent, WfGraph, WellNamed, Edges;
    FamilyNames();
    FamilyEdges();
    DoubleLinkIsDoubleEntry(FAMILY, [(0, 1)], 0, 0, 1);
  }

  /** The pair that the program records twice for ns3::Node. */
  const NODE := Registry([TypeInfo("ns3::Node", []), TypeInfo("ns3::Icmpv4L4Protocol", [])], {}, 2)

  const NODE_AGGREGATES := [(0, 1), (0, 1)]

  lemma NodeNames()
    ensures WfGraph(NODE, NODE_AGGREGATES) && WellNamed(NODE)
  {
    hide NoSlash, AttributesNamed;
    NoAttributes();
    NodeText();
    ProtocolText();
    assert NODE.types[0].name[5] == 'N' && NODE.types[1].name[5] == 'I';
  }

  lemma NodeText()
    ensures NoSlash("ns3::Node")
  {}

  lemma ProtocolText()
    ensures NoSlash("ns3::Icmpv4L4Protocol")
  {}

  lemma NoAttributes()
    ensures AttributesNamed([])
  {}

  lemma NodeEdges()
    requires WfGraph(NODE, NODE_AGGREGATES)
    ensures var e := Edge("$" + "ns3::Icmpv4L4Protocol", 1); Edges(NODE, NODE_AGGREGATES, 0) == [e, e]
  {
    hide WfGraph;
    assert ChildEdges(NODE, 0, 1) == ChildEdges(NODE, 0, 0) + [] == [];
    assert ChildEdges(NODE, 0, 2) == ChildEdges(NODE, 0, 1) + [] == [];
    assert NODE_AGGREGATES[..1] == [(0, 1)] && [(0, 1)][..0] == [];
    assert WfGraph(NODE, [(0, 1)]) && WfGraph(NODE, []) by { NodePart(); }
    assert AggregateEdges(NODE, 0, [(0, 1)]) == [] + [Edge("$" + "ns3::Icmpv4L4Protocol", 1)];
  }

  lemma NodePart()
    ensures WfGraph(NODE, [(0, 1)]) && WfGraph(NODE, [])
  {}

  lemma RepeatedAggregate()
    ensures WfGraph(NODE, NODE_AGGREGATES) && WellNamed(NODE)
    ensures !AllDifferent(EntriesFrom(NODE, NODE_AGGREGATES, 0))
  {
    hide EntriesFrom, AllDifferent, WfGraph, WellNamed, Edges;
    NodeNames();
    NodeEdges();
    DoubleLinkIsDoubleEntry(NODE, NODE_AGGREGATES, 0, 0, 1);
  }

  /** Types A and B, each with a container "X" of C. */
  const TWO_ROOTS := Registry([TypeInfo("A", [Attribute("X", Container(2))]),
                               TypeInfo("B", [Attribute("X", Container(2))]), TypeInfo("C", [])], {}, 3)

  lemma TwoRootsNames()
    ensures WfGraph(TWO_ROOTS, []) && WellNamed(TWO_ROOTS)
  {
    hide NoSlash, AttributesNamed;
    NoAttributes();
    LetterNames();
  }

  lemma LetterNames()
    ensures NoSlash("A") && NoSlash("B") && NoSlash("C") && AttributesNamed([Attribute("X", Container(2))])
  {
    assert "X"[0] != '$' && |"X"| != |"[i]"|;
  }

  lemma {:induction false} NoChildren(reg: Registry, t: TypeId, n: nat)
    requires n <= |reg.types| && reg.descendants == {}
    ensures ChildEdges(reg, t, n) == []
  {
    if n > 0 { NoChildren(reg, t, n - 1); }
  }

  lemma TwoRootsEdges()
    requires WfGraph(TWO_ROOTS, [])
    ensures Edges(TWO_ROOTS, [], 0) == Edges(TWO_ROOTS, [], 1) == [Edge("X/[i]", 2)] && Edges(TWO_ROOTS, [], 2) == []
  {
    hide WfGraph;
    var x := [Attribute("X", Container(2))];
    assert x[..0] == [] && "X" + "/[i]" == "X/[i]";
    assert AttributeEdges(TWO_ROOTS, x) == [] + [Edge("X/[i]", 2)];
    forall t ensures ChildEdges(TWO_ROOTS, t, 3) == [] { NoChildren(TWO_ROOTS, t, 3); }
  }

  /** No root alone records an entry twice, A and B together do. */
  lemma TwoRootsShare()
    ensures WfGraph(TWO_ROOTS, []) && WellNamed(TWO_ROOTS) && NoDoubleLink(TWO_ROOTS, [])
    ensures !AllDifferent(EntriesOfAll(TWO_ROOTS, [], [0, 1]))
  {
    hide EntriesOfAll, AllDifferent, WfGraph, WellNamed, Edges;
    TwoRootsNames();
    TwoRootsEdges();
    assert Edges(TWO_ROOTS, [], 0)[0] == Edges(TWO_ROOTS, [], 1)[0];
    SharedLinkIsDoubleEntry(TWO_ROOTS, [], 0, 1);
  }
}
