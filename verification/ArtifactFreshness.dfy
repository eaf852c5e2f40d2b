/** The freshness engine: active artifacts, their states, and recording (artifact_state.py). */
module ArtifactFreshness {
  import opened Prelude
  import opened ArtifactGraphs

  type Hash = string

  /** What stands at a path: a text file or a directory, by its hash, or something that cannot be hashed. */
  datatype Node = File(sha: Hash) | Folder(sha: Hash) | Unreadable

  datatype Evidence = Evidence(kind: string, id: string, source: string, sourceSha: Hash)

  datatype Record = Record(
    path: string, definitionSha: Hash, artifactSha: Hash, dependencySha: map<Id, Hash>, evidence: seq<Evidence>)

  /**
   * The files an evaluation reads: artifacts, evidence sources, and state records by (artifact,
   * domain). Some sources exist but are no regular UTF-8 file, some records exist but do not load.
   */
  datatype World = World(
    content: map<string, Node>, sources: map<string, Hash>, unusable: set<string>,
    records: map<(Id, Option<string>), Record>, broken: set<(Id, Option<string>)>)

  /** One evaluation's graph and arguments, with the library functions it passes through. */
  datatype Context = Context(
    graph: Graph, order: seq<Id>, feature: string, domain: Option<string>,
    definitionSha: Definition -> Hash, lower: string -> string, portable: string -> Option<string>)

  ghost predicate ValidContext(c: Context)
  {
    IsTopological(c.graph, c.order)
  }

  // ---------- the active part of a graph

  /** `b` is `a` or one of its transitive dependencies. */
  ghost predicate Reaches(g: Graph, a: Id, b: Id)
  {
    exists w: seq<Id> :: WalkFromTo(g, w, a, b)
  }

  predicate WalkFromTo(g: Graph, w: seq<Id>, a: Id, b: Id)
  {
    IsWalk(g, w) && w[0] == a && w[|w| - 1] == b
  }

  /** An artifact is active when one that applies to the risk depends on it, transitively, or is it. */
  ghost predicate IsActive(g: Graph, risk: string, a: Id)
  {
    exists root :: root in g && risk in g[root].appliesTo && Reaches(g, root, a)
  }

  function Filter(order: seq<Id>, keep: set<Id>): seq<Id>
  {
    if |order| == 0 then []
    else (if order[0] in keep then [order[0]] else []) + Filter(order[1..], keep)
  }

  lemma ReachesSelf(g: Graph, a: Id)
    requires a in g
    ensures Reaches(g, a, a)
  {
    assert WalkFromTo(g, [a], a, a);
  }

  lemma ReachesOn(g: Graph, a: Id, b: Id, d: Id)
    requires Reaches(g, a, b) && Edge(g, b, d)
    ensures Reaches(g, a, d)
  {
    var w :| WalkFromTo(g, w, a, b);
    var longer := w + [d];
    forall k | 0 < k < |longer| ensures Edge(g, longer[k - 1], longer[k]) {
      if k < |w| { assert Edge(g, w[k - 1], w[k]); }
    }
    assert WalkFromTo(g, longer, a, d);
  }

  lemma ReachesFirst(g: Graph, a: Id, b: Id, d: Id)
    requires Edge(g, a, b) && Reaches(g, b, d)
    ensures Reaches(g, a, d)
  {
    var w :| WalkFromTo(g, w, b, d);
    var longer := [a] + w;
    forall k | 0 < k < |longer| ensures Edge(g, longer[k - 1], longer[k]) {
      if k > 1 { assert Edge(g, w[k - 2], w[k - 1]); }
    }
    assert WalkFromTo(g, longer, a, d);
  }

  /** Whatever is reached is the artifact itself or is reached through a direct dependency. */
  lemma ReachesThrough(g: Graph, a: Id, d: Id)
    requires Resolved(g) && Reaches(g, a, d)
    ensures a in g && (a == d || exists b <- g[a].dependsOn :: Reaches(g, b, d))
  {
    var w :| WalkFromTo(g, w, a, d);
    if |w| > 1 {
      var rest := w[1..];
      assert Edge(g, w[0], w[1]);
      forall k | 0 < k < |rest| ensures Edge(g, rest[k - 1], rest[k]) { assert Edge(g, w[k], w[k + 1]); }
      assert WalkFromTo(g, rest, w[1], d);
    }
  }

  /** Everything reached is in the graph. */
  lemma ReachedInGraph(g: Graph, a: Id, d: Id)
    requires Resolved(g) && Reaches(g, a, d)
    ensures a in g && d in g
  {
    var w :| WalkFromTo(g, w, a, d);
    assert |w| > 1 ==> Edge(g, w[|w| - 2], w[|w| - 1]);
  }

  lemma {:induction false} ActiveClosed(g: Graph, active: set<Id>, risk: string, w: seq<Id>)
    requires IsWalk(g, w) && w[0] in active && forall a <- active :: a in g && forall d <- g[a].dependsOn :: d in active
    ensures w[|w| - 1] in active
    decreases |w|
  {
    if |w| > 1 {
      var init := w[..|w| - 1];
      assert Edge(g, w[|w| - 2], w[|w| - 1]);
      forall k | 0 < k < |init| ensures Edge(g, init[k - 1], init[k]) { assert Edge(g, w[k - 1], w[k]); }
      ActiveClosed(g, active, risk, init);
    }
  }

  /**
   * _active_graph: the worklist stops at exactly the active artifacts, the order keeps only
   * those, and it is still a topological order.
   */
  method ActiveGraph(g: Graph, order: seq<Id>, risk: string) returns (active: Graph, activeOrder: seq<Id>)
    requires IsTopological(g, order)
    ensures forall a :: a in active <==> IsActive(g, risk, a)
    ensures forall a <- active :: a in g && active[a] == g[a]
    ensures activeOrder == Filter(order, active.Keys) && IsTopological(active, activeOrder)
  {
    hide IsTopological, Filter, IsActive;
    assert Resolved(g) by { TopologicalIsAcyclic(g, order); }
    var ids := Closure(g, risk);
    active := map a | a in ids :: g[a];
    assert active.Keys == ids;
    activeOrder := Filter(order, ids);
    FilterTopological(g, order, active);
  }

  /** All dependencies of `a` are in the set. */
  predicate Covered(g: Graph, a: Id, ids: set<Id>)
    requires a in g
  {
    forall d <- g[a].dependsOn :: d in ids
  }

  /** What the worklist keeps: active artifacts, roots included, covered unless still queued. */
  ghost predicate WorkInv(g: Graph, risk: string, ids: set<Id>, queue: seq<Id>)
  {
    && ids <= g.Keys && (forall a <- queue :: a in ids)
    && (forall a <- g :: risk in g[a].appliesTo ==> a in ids)
    && (forall a <- ids :: IsActive(g, risk, a))
    && (forall a <- ids :: a in queue || Covered(g, a, ids))
  }

  /** The worklist loop. */
  method Closure(g: Graph, risk: string) returns (ids: set<Id>)
    requires Resolved(g)
    ensures ids <= g.Keys && (forall a :: a in ids <==> IsActive(g, risk, a))
    ensures forall a <- ids :: Covered(g, a, ids)
  {
    ids := set a | a in g && risk in g[a].appliesTo;
    var queue := SortedKeys(ids);
    RootsQueued(g, risk, ids, queue);
    hide *;
    while |queue| > 0
      invariant WorkInv(g, risk, ids, queue)
      decreases |g.Keys - ids|, |queue|
    {
      ids, queue := TakeOne(g, risk, ids, queue);
    }
    assert queue == [];
    WorkDone(g, risk, ids);
  }

  lemma RootsQueued(g: Graph, risk: string, ids: set<Id>, queue: seq<Id>)
    requires (forall a :: a in ids <==> a in g && risk in g[a].appliesTo) && forall a :: a in queue <==> a in ids
    ensures WorkInv(g, risk, ids, queue)
  {
    forall a | a in ids ensures IsActive(g, risk, a) { RootActive(g, risk, a); }
    hide IsActive;
  }

  lemma WorkDone(g: Graph, risk: string, ids: set<Id>)
    requires Resolved(g) && WorkInv(g, risk, ids, [])
    ensures ids <= g.Keys && (forall a :: a in ids <==> IsActive(g, risk, a))
    ensures forall a <- ids :: Covered(g, a, ids)
  {
    hide IsActive, Covered;
    ClosedIsActive(g, risk, ids);
  }

  /** One round of the worklist loop: pop an artifact and activate its dependencies. */
  method TakeOne(g: Graph, risk: string, before: set<Id>, waiting: seq<Id>) returns (ids: set<Id>, queue: seq<Id>)
    requires Resolved(g) && WorkInv(g, risk, before, waiting) && |waiting| > 0
    ensures WorkInv(g, risk, ids, queue)
    ensures before <= ids <= g.Keys && (ids == before ==> |queue| < |waiting|)
    ensures ids != before ==> |g.Keys - ids| < |g.Keys - before|
  {
    hide IsActive, Covered;
    var a := waiting[|waiting| - 1];
    queue := waiting[..|waiting| - 1];
    assert forall b <- waiting :: b == a || b in queue;
    ids, queue := AddDependencies(g, risk, a, before, queue);
    forall b | b in before && Covered(g, b, before) ensures Covered(g, b, ids) { CoveredGrows(g, b, before, ids); }
    if ids != before {
      FewerLeft(g.Keys, before, ids);
    }
  }

  lemma FewerLeft(all: set<Id>, before: set<Id>, ids: set<Id>)
    requires before < ids <= all
    ensures |all - ids| < |all - before|
  {
    var x :| x in ids && x !in before;
    Cardinality(all - ids, all - before, x);
  }

  lemma Cardinality(small: set<Id>, large: set<Id>, x: Id)
    requires small <= large && x in large && x !in small
    ensures |small| < |large|
  {
    var rest := large - small;
    assert large == small + rest && x in rest;
    assert |large| == |small| + |rest|;
  }

  /** The inner loop: dependencies not yet active join the set and the queue. */
  method AddDependencies(g: Graph, risk: string, a: Id, before: set<Id>, waiting: seq<Id>)
    returns (ids: set<Id>, queue: seq<Id>)
    requires Resolved(g) && before <= g.Keys && a in before && IsActive(g, risk, a)
    requires (forall b <- waiting :: b in before) && (forall b <- before :: IsActive(g, risk, b))
    ensures before <= ids <= g.Keys && Covered(g, a, ids)
    ensures forall b <- ids :: IsActive(g, risk, b)
    ensures forall b <- ids :: b in before || b in queue
    ensures forall b <- queue :: b in ids
    ensures forall b <- waiting :: b in queue
    ensures ids == before ==> queue == waiting
  {
    hide IsActive;
    ids, queue := before, waiting;
    var dependencies := g[a].dependsOn;
    for i := 0 to |dependencies|
      invariant before <= ids <= g.Keys && forall d <- dependencies[..i] :: d in ids
      invariant forall b <- ids :: IsActive(g, risk, b)
      invariant forall b <- ids :: b in before || b in queue
      invariant forall b <- queue :: b in ids
      invariant forall b <- waiting :: b in queue
      invariant ids == before ==> queue == waiting
    {
      var d := dependencies[i];
      assert Edge(g, a, d);
      ActiveOn(g, risk, a, d);
      if d !in ids {
        ids := ids + {d};
        queue := queue + [d];
        assert d in ids && d !in before;
      }
      assert dependencies[..i + 1] == dependencies[..i] + [d];
    }
    assert dependencies[..|dependencies|] == dependencies;
  }

  lemma CoveredGrows(g: Graph, a: Id, before: set<Id>, ids: set<Id>)
    requires a in g && Covered(g, a, before) && before <= ids
    ensures Covered(g, a, ids)
  {
  }

  lemma RootActive(g: Graph, risk: string, a: Id)
    requires a in g && risk in g[a].appliesTo
    ensures IsActive(g, risk, a)
  {
    ReachesSelf(g, a);
  }

  lemma ActiveOn(g: Graph, risk: string, a: Id, d: Id)
    requires IsActive(g, risk, a) && Edge(g, a, d)
    ensures IsActive(g, risk, d)
  {
    var root :| root in g && risk in g[root].appliesTo && Reaches(g, root, a);
    ReachesOn(g, root, a, d);
  }

  lemma ClosedIsActive(g: Graph, risk: string, ids: set<Id>)
    requires ids <= g.Keys && (forall a <- ids :: IsActive(g, risk, a))
    requires forall a <- g :: risk in g[a].appliesTo ==> a in ids
    requires forall a <- ids :: Covered(g, a, ids)
    ensures forall a :: a in ids <==> IsActive(g, risk, a)
  {
    forall a | IsActive(g, risk, a) ensures a in ids {
      var root :| root in g && risk in g[root].appliesTo && Reaches(g, root, a);
      var w :| WalkFromTo(g, w, root, a);
      ActiveClosed(g, ids, risk, w);
    }
  }

  lemma {:induction false} FilterMembers(order: seq<Id>, keep: set<Id>)
    ensures forall a :: a in Filter(order, keep) <==> a in order && a in keep
    ensures NoDuplicates(order) ==> NoDuplicates(Filter(order, keep))
  {
    if |order| > 0 {
      FilterMembers(order[1..], keep);
      assert order == [order[0]] + order[1..];
      if NoDuplicates(order) {
        assert forall j :: 0 < j < |order| ==> order[0] != order[j];
        assert order[0] !in order[1..];
        assert NoDuplicates(order[1..]);
      }
    }
  }

  lemma {:induction false} FilterPrefix(order: seq<Id>, keep: set<Id>, i: nat)
    requires i < |Filter(order, keep)|
    ensures exists j: nat ::
              && j < |order| && order[j] == Filter(order, keep)[i]
              && Filter(order, keep)[..i] == Filter(order[..j], keep)
    decreases |order|
  {
    var rest := order[1..];
    if order[0] in keep && i == 0 {
      assert order[..0] == [];
    } else {
      var k := if order[0] in keep then i - 1 else i;
      FilterPrefix(rest, keep, k);
      var j: nat :| j < |rest| && rest[j] == Filter(rest, keep)[k]
        && Filter(rest, keep)[..k] == Filter(rest[..j], keep);
      assert order[..j + 1][1..] == rest[..j];
      assert order[j + 1] == Filter(order, keep)[i] && Filter(order, keep)[..i] == Filter(order[..j + 1], keep);
    }
  }

  /** Keeping a dependency-closed part of a topological order keeps it topological. */
  lemma FilterTopological(g: Graph, order: seq<Id>, active: Graph)
    requires IsTopological(g, order) && (forall a <- active :: a in g && active[a] == g[a])
    requires forall a <- active :: forall d <- active[a].dependsOn :: d in active
    ensures IsTopological(active, Filter(order, active.Keys))
  {
    var kept := Filter(order, active.Keys);
    FilterMembers(order, active.Keys);
    forall i | 0 <= i < |kept| ensures kept[i] in active && forall d <- active[kept[i]].dependsOn :: d in kept[..i] {
      assert kept[i] in kept;
      FilterPrefix(order, active.Keys, i);
      var j: nat :| j < |order| && order[j] == kept[i] && kept[..i] == Filter(order[..j], active.Keys);
      FilterMembers(order[..j], active.Keys);
    }
  }

  // ---------- paths and records

  predicate StartsWith(s: string, prefix: string)
  {
    |prefix| <= |s| && s[..|prefix|] == prefix
  }

  /** s.replace(pattern, value). */
  function Replace(s: string, pattern: string, value: string): string
    requires |pattern| > 0
  {
    if |s| == 0 then ""
    else if StartsWith(s, pattern) then value + Replace(s[|pattern|..], pattern, value)
    else [s[0]] + Replace(s[1..], pattern, value)
  }

  predicate Mentions(s: string, pattern: string)
  {
    StartsWith(s, pattern) || (|s| > 0 && Mentions(s[1..], pattern))
  }

  /** _materialize_path; None when the path needs a domain that was not given. */
  function PathOf(c: Context, d: Definition): Option<string>
  {
    var rendered := Replace(d.path, "{feature}", c.feature);
    if !Mentions(rendered, "{domain}") then Some(rendered)
    else if c.domain.None? then None
    else Some(Replace(rendered, "{domain}", c.domain.value))
  }

  /** The record of an artifact, kept apart for every domain its path mentions. */
  function RecordKey(c: Context, d: Definition, a: Id): (Id, Option<string>)
  {
    (a, if Mentions(d.path, "{domain}") then c.domain else None)
  }

  function HashAt(w: World, path: Option<string>): Option<Hash>
  {
    if path.Some? && path.value in w.content && !w.content[path.value].Unreadable?
      then Some(w.content[path.value].sha) else None
  }

  /** The current content hash of an artifact; None when there is no content. */
  function HashOf(c: Context, w: World, a: Id): Option<Hash>
    requires a in c.graph
  {
    HashAt(w, PathOf(c, c.graph[a]))
  }

  function RecordOf(c: Context, w: World, a: Id): Option<Record>
    requires a in c.graph
  {
    var key := RecordKey(c, c.graph[a], a);
    if key in w.records then Some(w.records[key]) else None
  }

  /** The path can be rendered, the content has the declared form, and the record loads if there is one. */
  predicate Readable(c: Context, w: World, a: Id)
    requires a in c.graph
  {
    var path := PathOf(c, c.graph[a]);
    && path.Some?
    && (path.value in w.content ==>
          !w.content[path.value].Unreadable? && (w.content[path.value].Folder? <==> c.graph[a].kind == "directory"))
    && RecordKey(c, c.graph[a], a) !in w.broken
  }

  /** No evidence source of the artifact's record is in the way of hashing it. */
  predicate EvidenceUsable(c: Context, w: World, a: Id)
    requires a in c.graph
  {
    var r := RecordOf(c, w, a);
    r.Some? ==> forall e <- r.value.evidence :: e.source !in w.unusable
  }

  /** What lets an evaluation go through. */
  predicate Evaluable(c: Context, w: World, a: Id)
    requires a in c.graph
  {
    Readable(c, w, a) && EvidenceUsable(c, w, a)
  }

  // ---------- states

  datatype Freshness = Fresh | Stale | Missing | Blocked

  predicate Gone(f: Freshness)
  {
    f.Missing? || f.Blocked?
  }

  predicate EvidenceFresh(w: World, e: Evidence)
  {
    e.source in w.sources && w.sources[e.source] == e.sourceSha
  }

  /** The record still describes the artifact, its dependencies' content, and its evidence. */
  predicate Matches(c: Context, w: World, a: Id, r: Record)
    requires a in c.graph
  {
    var d := c.graph[a];
    && Some(r.path) == PathOf(c, d)
    && r.definitionSha == c.definitionSha(d)
    && Some(r.artifactSha) == HashOf(c, w, a)
    && NoDuplicates(d.dependsOn) && (set b <- d.dependsOn) == r.dependencySha.Keys
    && (forall b <- d.dependsOn :: b in c.graph && HashOf(c, w, b).Some? ==>
          b in r.dependencySha && HashOf(c, w, b) == Some(r.dependencySha[b]))
    && (forall e <- r.evidence :: EvidenceFresh(w, e))
  }

  /** The state of an artifact, from the states of its direct dependencies. */
  function StateOf(c: Context, w: World, a: Id): Freshness
    requires ValidContext(c) && a in c.graph
    decreases (InOrder(c.graph, c.order, a); Pos(c.order, a))
  {
    InOrder(c.graph, c.order, a);
    assert forall b <- c.graph[a].dependsOn :: b in c.graph && b in c.order && Pos(c.order, b) < Pos(c.order, a) by {
      forall b | b in c.graph[a].dependsOn ensures b in c.graph && b in c.order && Pos(c.order, b) < Pos(c.order, a) {
        DependencyEarlier(c.graph, c.order, a, b);
      }
    }
    if HashOf(c, w, a).None? then Missing
    else if exists b <- c.graph[a].dependsOn :: Gone(StateOf(c, w, b)) then Blocked
    else if RecordOf(c, w, a).None? then Stale
    else if Matches(c, w, a, RecordOf(c, w, a).value)
            && forall b <- c.graph[a].dependsOn :: !StateOf(c, w, b).Stale? then Fresh
    else Stale
  }
}
