/** Artifact definitions as a dependency graph: walks, cycles, and topological orders (artifact_schemas.py). */
module ArtifactGraphs {
  import opened Prelude
  import opened Json
  import opened JsonProofs

  type Id = string

  datatype Layer = Builtin | Org | Repo | User

  datatype Definition = Definition(
    id: Id, path: string, kind: string, required: bool, locked: bool,
    dependsOn: seq<Id>, appliesTo: seq<string>, layer: Layer, schemaId: string, source: string,
    organizationRequired: bool, organizationDependencies: set<Id>)

  type Graph = map<Id, Definition>

  /** Every dependency is itself an artifact. */
  predicate Resolved(g: Graph)
  {
    forall a <- g :: forall d <- g[a].dependsOn :: d in g
  }

  /** `b` is a direct dependency of `a`. */
  predicate Edge(g: Graph, a: Id, b: Id)
  {
    a in g && b in g[a].dependsOn
  }

  /** Each element depends directly on the next one. */
  predicate IsWalk(g: Graph, w: seq<Id>)
  {
    |w| > 0 && w[0] in g && forall k :: 0 < k < |w| ==> Edge(g, w[k - 1], w[k])
  }

  /** A walk that returns to where it started. */
  predicate IsCycle(g: Graph, c: seq<Id>)
  {
    |c| > 1 && IsWalk(g, c) && c[0] == c[|c| - 1]
  }

  ghost predicate Acyclic(g: Graph)
  {
    forall c: seq<Id> :: !IsCycle(g, c)
  }

  predicate NoDuplicates(s: seq<Id>)
  {
    forall i, j :: 0 <= i < j < |s| ==> s[i] != s[j]
  }

  /** Every artifact once, after all its dependencies. */
  ghost predicate IsTopological(g: Graph, order: seq<Id>)
  {
    && NoDuplicates(order)
    && (forall a :: a in order <==> a in g)
    && DependenciesFirst(g, order)
  }

  predicate DependenciesFirst(g: Graph, order: seq<Id>)
  {
    forall i :: 0 <= i < |order| ==> order[i] in g && forall d <- g[order[i]].dependsOn :: d in order[..i]
  }

  // ---------- positions in an order

  function Pos(order: seq<Id>, a: Id): (i: nat)
    requires a in order
    ensures i < |order| && order[i] == a
  {
    if order[0] == a then 0 else 1 + Pos(order[1..], a)
  }

  lemma PosUnique(order: seq<Id>, i: nat)
    requires NoDuplicates(order) && i < |order|
    ensures Pos(order, order[i]) == i
  {
  }

  /** A dependency stands earlier in a topological order. */
  lemma DependencyEarlier(g: Graph, order: seq<Id>, a: Id, d: Id)
    requires IsTopological(g, order) && Edge(g, a, d)
    ensures a in order && d in order && d in g && Pos(order, d) < Pos(order, a)
  {
    var i := Pos(order, a);
    assert d in order[..i];
    var j :| 0 <= j < i && order[j] == d;
    PosUnique(order, j);
  }

  lemma {:induction false} WalkDescends(g: Graph, order: seq<Id>, w: seq<Id>, k: nat)
    requires IsTopological(g, order) && IsWalk(g, w) && k < |w|
    ensures w[0] in order && w[k] in order && Pos(order, w[k]) + k <= Pos(order, w[0])
    decreases k
  {
    hide IsTopological;
    assert w[0] in order by { InOrder(g, order, w[0]); }
    if k > 0 {
      WalkDescends(g, order, w, k - 1);
      DependencyEarlier(g, order, w[k - 1], w[k]);
    }
  }

  lemma InOrder(g: Graph, order: seq<Id>, a: Id)
    requires IsTopological(g, order) && a in g
    ensures a in order
  {
  }

  /** A graph with a topological order has resolved dependencies and no cycle. */
  lemma TopologicalIsAcyclic(g: Graph, order: seq<Id>)
    requires IsTopological(g, order)
    ensures Resolved(g) && Acyclic(g)
  {
    forall a, d | a in g && d in g[a].dependsOn ensures d in g {
      DependencyEarlier(g, order, a, d);
    }
    forall c: seq<Id> | IsCycle(g, c) ensures false {
      WalkDescends(g, order, c, |c| - 1);
    }
  }

  // ---------- sorted iteration

  function Insert(a: Id, sorted: seq<Id>): seq<Id>
  {
    if |sorted| == 0 || !Less(sorted[0], a) then [a] + sorted else [sorted[0]] + Insert(a, sorted[1..])
  }

  /** sorted(ids). */
  function SortIds(ids: seq<Id>): seq<Id>
  {
    if |ids| == 0 then [] else Insert(ids[0], SortIds(ids[1..]))
  }

  lemma {:induction false} InsertKeeps(a: Id, sorted: seq<Id>)
    ensures multiset(Insert(a, sorted)) == multiset(sorted) + multiset{a}
  {
    if |sorted| > 0 && Less(sorted[0], a) {
      InsertKeeps(a, sorted[1..]);
      assert sorted == [sorted[0]] + sorted[1..];
    }
  }

  /** Sorting keeps exactly the same ids. */
  lemma {:induction false} SortKeeps(ids: seq<Id>)
    ensures multiset(SortIds(ids)) == multiset(ids)
    ensures forall a :: a in SortIds(ids) <==> a in ids
  {
    hide Insert;
    if |ids| > 0 {
      SortKeeps(ids[1..]);
      InsertKeeps(ids[0], SortIds(ids[1..]));
      assert ids == [ids[0]] + ids[1..];
    }
    forall a ensures a in SortIds(ids) <==> a in ids {
      assert a in SortIds(ids) <==> a in multiset(SortIds(ids));
      assert a in ids <==> a in multiset(ids);
    }
  }

  predicate Ordered(ids: seq<Id>)
  {
    forall i, j :: 0 <= i < j < |ids| ==> !Less(ids[j], ids[i])
  }

  lemma {:induction false} InsertOrdered(a: Id, sorted: seq<Id>)
    requires Ordered(sorted)
    ensures Ordered(Insert(a, sorted))
  {
    hide Less;
    if |sorted| == 0 || !Less(sorted[0], a) {
      forall j | 0 <= j < |sorted| ensures !Less(sorted[j], a) {
        if j > 0 && Less(sorted[j], a) {
          LessTotal(sorted[0], sorted[j]);
          if sorted[0] != sorted[j] { LessTransitive(sorted[0], sorted[j], a); }
        }
      }
    } else {
      InsertOrdered(a, sorted[1..]);
      InsertKeeps(a, sorted[1..]);
      var rest := Insert(a, sorted[1..]);
      forall j | 0 <= j < |rest| ensures !Less(rest[j], sorted[0]) {
        assert rest[j] in multiset(rest);
        if rest[j] == a {
          if Less(a, sorted[0]) { LessTransitive(a, sorted[0], a); LessIrreflexive(a); }
        } else {
          var k :| 0 <= k < |sorted| - 1 && sorted[1..][k] == rest[j];
          assert !Less(sorted[k + 1], sorted[0]);
        }
      }
    }
  }

  /** Sorted ids come in ascending order. */
  lemma {:induction false} SortSorts(ids: seq<Id>)
    ensures Ordered(SortIds(ids))
  {
    if |ids| > 0 {
      SortSorts(ids[1..]);
      InsertOrdered(ids[0], SortIds(ids[1..]));
    }
  }

  predicate IsLeast(a: Id, ids: set<Id>)
  {
    a in ids && forall b <- ids :: b == a || Less(a, b)
  }

  lemma {:induction false} LeastExists(ids: set<Id>) returns (least: Id)
    requires ids != {}
    ensures IsLeast(least, ids)
    decreases |ids|
  {
    var a :| a in ids;
    if ids == {a} {
      least := a;
    } else {
      var rest := LeastExists(ids - {a});
      LessTotal(a, rest);
      least := if Less(a, rest) then a else rest;
      forall b | b in ids ensures b == least || Less(least, b) {
        if least == a && b != a && b != rest {
          LessTransitive(a, rest, b);
        }
      }
    }
  }

  lemma LeastUnique(ids: set<Id>)
    requires ids != {}
    ensures exists a :: IsLeast(a, ids)
    ensures forall a, b :: IsLeast(a, ids) && IsLeast(b, ids) ==> a == b
  {
    var least := LeastExists(ids);
    forall a, b | IsLeast(a, ids) && IsLeast(b, ids) && a != b ensures false {
      LessTransitive(a, b, a);
      LessIrreflexive(a);
    }
  }

  /** sorted(d) for a dictionary with these keys. */
  function SortedKeys(ids: set<Id>): (keys: seq<Id>)
    ensures forall a :: a in keys <==> a in ids
    decreases |ids|
  {
    if ids == {} then []
    else
      LeastUnique(ids);
      var least :| IsLeast(least, ids);
      [least] + SortedKeys(ids - {least})
  }

  // ---------- the depth-first sort

  datatype GraphError =
    | MissingDependency(artifact: Id, dependency: Id)
    | DependencyCycle(cycle: seq<Id>)

  lemma {:induction false} DistinctFit(s: seq<Id>, ids: set<Id>)
    requires NoDuplicates(s) && forall a <- s :: a in ids
    ensures |s| <= |ids|
  {
    if |s| > 0 {
      forall a | a in s[1..] ensures a in ids - {s[0]} {
        var j :| 0 <= j < |s| - 1 && s[1..][j] == a;
        assert s[j + 1] == a;
      }
      DistinctFit(s[1..], ids - {s[0]});
    }
  }

  predicate VisitingOk(g: Graph, visiting: seq<Id>)
  {
    NoDuplicates(visiting) && forall b <- visiting :: b in g
  }

  /** What the search has after visiting `a`: the longer result, or the cycle it ran into. */
  ghost function Explore(g: Graph, visiting: seq<Id>, result: seq<Id>, a: Id): Result<seq<Id>, seq<Id>>
    requires Resolved(g) && a in g && VisitingOk(g, visiting)
    decreases |g.Keys| - |visiting|, 1, 0
  {
    if a in result then Ok(result)
    else if a in visiting then Err(visiting[Pos(visiting, a)..] + [a])
    else
      DistinctFit(visiting + [a], g.Keys);
      SortKeeps(g[a].dependsOn);
      var r := ExploreAll(g, visiting + [a], result, SortIds(g[a].dependsOn));
      if r.Err? then r else Ok(r.value + [a])
  }

  /** The same after visiting several artifacts, one after the other. */
  ghost function ExploreAll(g: Graph, visiting: seq<Id>, result: seq<Id>, ids: seq<Id>): Result<seq<Id>, seq<Id>>
    requires Resolved(g) && VisitingOk(g, visiting) && |visiting| <= |g.Keys| && forall a <- ids :: a in g
    decreases |g.Keys| - |visiting|, 2, |ids|
  {
    if |ids| == 0 then Ok(result)
    else
      assert ids[|ids| - 1] in ids;
      var before := ExploreAll(g, visiting, result, ids[..|ids| - 1]);
      if before.Err? then before else Explore(g, visiting, before.value, ids[|ids| - 1])
  }

  /** A search that runs into a cycle stops there. */
  lemma {:induction false} ExploreStops(g: Graph, visiting: seq<Id>, result: seq<Id>, ids: seq<Id>, n: nat)
    requires Resolved(g) && VisitingOk(g, visiting) && |visiting| <= |g.Keys| && (forall a <- ids :: a in g)
             && n <= |ids|
    requires forall a <- ids[..n] :: a in g
    requires ExploreAll(g, visiting, result, ids[..n]).Err?
    ensures ExploreAll(g, visiting, result, ids) == ExploreAll(g, visiting, result, ids[..n])
    decreases |ids|
  {
    hide Explore;
    if n == |ids| {
      assert ids[..n] == ids;
    } else {
      var init := ids[..|ids| - 1];
      assert init[..n] == ids[..n];
      ExploreStops(g, visiting, result, init, n);
    }
  }

  /** Outcome of a method against the search it carries out. */
  ghost function Outcome(cycle: Option<seq<Id>>, result: seq<Id>): Result<seq<Id>, seq<Id>>
  {
    if cycle.Some? then Err(cycle.value) else Ok(result)
  }

  /** The nested function `visit` with the lists it shares with its caller. */
  class Sorter {
    const graph: Graph
    var visiting: seq<Id>
    var visited: set<Id>
    var result: seq<Id>

    constructor (graph: Graph)
      ensures this.graph == graph && visiting == [] && visited == {} && result == []
    {
      this.graph := graph;
      visiting, visited, result := [], {}, [];
    }

    /** The result lists the visited artifacts in a good order; the others are being visited. */
    ghost predicate Valid()
      reads this
    {
      && NoDuplicates(result) && (forall a :: a in result <==> a in visited) && DependenciesFirst(graph, result)
      && NoDuplicates(visiting) && (forall a <- visiting :: a in graph && a !in visited)
    }

    /** The artifacts being visited form a walk that can continue to `next`. */
    predicate PathTo(next: Id)
      reads this
    {
      && (|visiting| > 0 ==> IsWalk(graph, visiting))
      && (|visiting| > 0 ==> Edge(graph, visiting[|visiting| - 1], next))
    }

    method Visit(a: Id) returns (cycle: Option<seq<Id>>)
      requires Resolved(graph) && a in graph && Valid() && PathTo(a)
      modifies this
      ensures cycle.None? ==>
                && Valid() && visiting == old(visiting) && old(visited) <= visited && a in visited
                && old(result) <= result
      ensures cycle.Some? ==> IsCycle(graph, cycle.value)
      ensures Explore(graph, old(visiting), old(result), a) == Outcome(cycle, result)
      decreases |graph.Keys| - |visiting|, 1
    {
      hide IsWalk, DependenciesFirst, SortIds, IsCycle, Pos, ExploreAll, Resolved;
      if a in visited {
        return None;
      }
      if a in visiting {
        var index := Pos(visiting, a);
        var found := visiting[index..] + [a];
        WalkBack(visiting, index, a);
        return Some(found);
      }
      FitsOneMore(a);
      SortKeeps(graph[a].dependsOn);
      WalkOn(visiting, a);
      visiting := visiting + [a];
      cycle := VisitAll(SortIds(graph[a].dependsOn), a);
      if cycle.Some? {
        return;
      }
      Finish(a);
    }

    /** All dependencies of `a` are visited: it joins the result. */
    method Finish(a: Id)
      requires Valid() && a in graph && |visiting| > 0 && visiting[|visiting| - 1] == a
      requires forall d <- graph[a].dependsOn :: d in visited
      modifies this
      ensures Valid() && visiting == old(visiting)[..|old(visiting)| - 1]
      ensures visited == old(visited) + {a} && result == old(result) + [a]
    {
      hide DependenciesFirst;
      assert a in visiting;
      ResultGrows(a);
      visiting := visiting[..|visiting| - 1];
      visited := visited + {a};
      result := result + [a];
    }

    /** The loop over the sorted dependencies of `a`, the artifact visited last. */
    method VisitAll(dependencies: seq<Id>, a: Id) returns (cycle: Option<seq<Id>>)
      requires Resolved(graph) && Valid() && |visiting| > 0 && visiting[|visiting| - 1] == a && IsWalk(graph, visiting)
      requires forall d :: d in dependencies <==> Edge(graph, a, d)
      requires |visiting| <= |graph.Keys|
      modifies this
      ensures cycle.None? ==>
                && Valid() && visiting == old(visiting) && old(visited) <= visited && old(result) <= result
                && forall d <- dependencies :: d in visited
      ensures cycle.Some? ==> IsCycle(graph, cycle.value)
      ensures VisitingOk(graph, old(visiting)) && forall d <- dependencies :: d in graph
      ensures ExploreAll(graph, old(visiting), old(result), dependencies) == Outcome(cycle, result)
      decreases |graph.Keys| - |visiting|, 2
    {
      hide Explore, IsWalk, DependenciesFirst, IsCycle;
      var i := 0;
      assert forall d <- dependencies :: Edge(graph, a, d) && d in graph;
      while i < |dependencies|
        invariant i <= |dependencies|
        invariant Valid() && visiting == old(visiting) && old(visited) <= visited && old(result) <= result
        invariant forall d <- dependencies[..i] :: d in visited
        invariant ExploreAll(graph, visiting, old(result), dependencies[..i]) == Ok(result)
      {
        assert dependencies[i] in dependencies;
        assert dependencies[..i + 1] == dependencies[..i] + [dependencies[i]];
        assert dependencies[..i + 1][..i] == dependencies[..i];
        cycle := Visit(dependencies[i]);
        if cycle.Some? {
          ExploreStops(graph, old(visiting), old(result), dependencies, i + 1);
          return;
        }
        i := i + 1;
      }
      assert dependencies[..|dependencies|] == dependencies;
      return None;
    }

    lemma FitsOneMore(a: Id)
      requires Valid() && a in graph && a !in visiting
      ensures |visiting| + 1 <= |graph.Keys|
    {
      DistinctFit(visiting + [a], graph.Keys);
    }

    lemma WalkOn(path: seq<Id>, a: Id)
      requires a in graph && (|path| > 0 ==> IsWalk(graph, path) && Edge(graph, path[|path| - 1], a))
      ensures IsWalk(graph, path + [a])
    {
      var longer := path + [a];
      forall k | 0 < k < |longer| ensures Edge(graph, longer[k - 1], longer[k]) {
        if k < |path| { assert Edge(graph, path[k - 1], path[k]); }
      }
    }

    lemma WalkBack(path: seq<Id>, index: nat, a: Id)
      requires |path| > 0 && IsWalk(graph, path) && Edge(graph, path[|path| - 1], a)
      requires index < |path| && path[index] == a && forall b <- path :: b in graph
      ensures IsCycle(graph, path[index..] + [a])
    {
      var c := path[index..] + [a];
      assert c[0] == path[index];
      forall k | 0 < k < |c| ensures Edge(graph, c[k - 1], c[k]) {
        if k < |c| - 1 { assert Edge(graph, path[index + k - 1], path[index + k]); }
      }
    }

    lemma ResultGrows(a: Id)
      requires Valid() && a in graph && a !in visited && forall d <- graph[a].dependsOn :: d in visited
      ensures NoDuplicates(result + [a]) && DependenciesFirst(graph, result + [a])
    {
      var longer := result + [a];
      forall i | 0 <= i < |longer| ensures longer[i] in graph
        && forall d <- graph[longer[i]].dependsOn :: d in longer[..i] {
        if i < |result| { assert longer[..i] == result[..i]; } else { assert longer[..i] == result; }
      }
    }
  }

  function CycleOf(e: GraphError): seq<Id>
  {
    if e.DependencyCycle? then e.cycle else []
  }

  /**
   * _topological_order: it succeeds exactly on graphs with resolved dependencies and no cycle,
   * with a topological order; otherwise it names a missing dependency or a genuine cycle. Order
   * and cycle are those of the depth-first search that takes ids in ascending order.
   */
  method TopologicalOrder(g: Graph) returns (r: Result<seq<Id>, GraphError>)
    ensures r.Ok? <==> Resolved(g) && Acyclic(g)
    ensures r.Ok? ==> IsTopological(g, r.value)
    ensures r.Err? && r.error.MissingDependency? ==>
              Edge(g, r.error.artifact, r.error.dependency) && r.error.dependency !in g
    ensures r.Err? && r.error.DependencyCycle? ==> Resolved(g) && IsCycle(g, r.error.cycle)
    ensures Resolved(g) ==>
              ExploreAll(g, [], [], SortedKeys(g.Keys)) == if r.Ok? then Ok(r.value) else Err(CycleOf(r.error))
  {
    hide SortedKeys, Less, Pos, IsTopological;
    var keys := SortedKeys(g.Keys);
    if !Resolved(g) {
      var a :| a in g && exists d <- g[a].dependsOn :: d !in g;
      var d :| d in g[a].dependsOn && d !in g;
      return Err(MissingDependency(a, d));
    }
    var sorter := new Sorter(g);
    var i := 0;
    while i < |keys|
      invariant i <= |keys| && fresh(sorter) && sorter.graph == g
      invariant sorter.Valid() && sorter.visiting == []
      invariant forall a <- keys[..i] :: a in sorter.visited
      invariant ExploreAll(g, [], [], keys[..i]) == Ok(sorter.result)
    {
      hide Explore, DependenciesFirst, IsCycle;
      assert keys[i] in keys;
      assert keys[..i + 1] == keys[..i] + [keys[i]] && keys[..i + 1][..i] == keys[..i];
      var cycle := sorter.Visit(keys[i]);
      if cycle.Some? {
        ExploreStops(g, [], [], keys, i + 1);
        return Err(DependencyCycle(cycle.value));
      }
      i := i + 1;
    }
    assert keys[..|keys|] == keys;
    AllListed(g, sorter.result);
    TopologicalIsAcyclic(g, sorter.result);
    return Ok(sorter.result);
  }

  lemma AllListed(g: Graph, result: seq<Id>)
    requires NoDuplicates(result) && DependenciesFirst(g, result) && forall a <- g :: a in result
    ensures IsTopological(g, result)
  {
    forall a | a in result ensures a in g {
      assert result[Pos(result, a)] in g;
    }
  }
}
