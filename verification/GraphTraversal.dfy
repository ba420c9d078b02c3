/** traverseMemoryGraph of src/entities.ts: the capped, levelled breadth-first search refines "the
    first 100 of the whole ball, by exact distance and then key". */
module GraphTraversal {
  import opened Prelude
  import opened Ordering

  const GRAPH_MAX_ENTITIES: nat := 100

  /** An entity row; texts are their ranks in the database collation. */
  datatype Entity = Entity(namespace: int, kind: int, name: int, id: Id)

  /** ORDER BY namespace, type, normalized_name, id */
  predicate EntityLess(a: Entity, b: Entity) {
    a.namespace < b.namespace || (a.namespace == b.namespace &&
    (a.kind < b.kind || (a.kind == b.kind &&
    (a.name < b.name || (a.name == b.name && a.id < b.id)))))
  }

  ghost function AscendingEntities(s: set<Entity>): (q: seq<Entity>)
    ensures Lists(EntityLess, s, q)
  {
    AscendingLists(EntityLess, s);
    Ascending(EntityLess, s)
  }

  method ListEntities(s: set<Entity>) returns (q: seq<Entity>)
    ensures q == AscendingEntities(s)
  {
    q := ListAscending(EntityLess, s);
  }

  /** What the traversal reads: entities, links between entities and memories of one namespace,
      the memories the caller may see, and the entities whose name or alias (and type) match. */
  datatype Database = Database(entities: set<Entity>, links: set<(Entity, Id)>, visible: set<Id>, matching: set<Entity>)

  /** The graph it walks. */
  datatype Edge = Edge(from: Entity, to: Entity)

  datatype Graph = Graph(entities: set<Entity>, seeds: set<Entity>, edges: set<Edge>)

  predicate ShareMemory(db: Database, f: Entity, e: Entity) {
    exists m :: m in db.visible && (f, m) in db.links && (e, m) in db.links
  }

  /** Seeds match and have a visible link; neighbours share a visible memory. */
  function GraphOf(db: Database): Graph {
    Graph(db.entities,
          set e | e in db.entities && e in db.matching && exists m :: m in db.visible && (e, m) in db.links,
          set f, e | f in db.entities && e in db.entities && ShareMemory(db, f, e) :: Edge(f, e))
  }

  /** The neighbour query of one level. */
  function Neighbours(g: Graph, frontier: set<Entity>, seen: set<Entity>): set<Entity> {
    set e | e in g.entities && e !in seen && exists f :: f in frontier && Edge(f, e) in g.edges
  }

  // ---------------------------------------------------------------- the specification

  /** Entities within `n` hops of a seed. */
  function Ball(g: Graph, n: nat): set<Entity> {
    if n == 0 then g.seeds else Ball(g, n - 1) + Neighbours(g, Ball(g, n - 1), {})
  }

  function Layer(g: Graph, n: nat): set<Entity> {
    if n == 0 then g.seeds else Ball(g, n) - Ball(g, n - 1)
  }

  ghost function Layers(g: Graph, n: nat): (ls: seq<set<Entity>>)
    ensures |ls| == n + 1
  {
    if n == 0 then [Layer(g, 0)] else Layers(g, n - 1) + [Layer(g, n)]
  }

  /** Layer by layer, each in key order. */
  ghost function Concatenated(ls: seq<set<Entity>>): seq<Entity> {
    if ls == [] then [] else Concatenated(ls[..|ls| - 1]) + AscendingEntities(ls[|ls| - 1])
  }

  /** The whole ball by distance, then key. */
  ghost function ByDistance(g: Graph, n: nat): seq<Entity> {
    Concatenated(Layers(g, n))
  }

  ghost predicate IsPath(g: Graph, p: seq<Entity>, e: Entity) {
    && |p| > 0 && p[0] in g.seeds && p[|p| - 1] == e
    && (forall i :: 0 < i < |p| ==> p[i] in g.entities)
    && (forall i :: 0 < i < |p| ==> Edge(p[i - 1], p[i]) in g.edges)
  }

  lemma {:induction false} BallReached(g: Graph, n: nat, e: Entity) returns (p: seq<Entity>)
    requires e in Ball(g, n)
    ensures IsPath(g, p, e) && |p| <= n + 1
  {
    if n == 0 {
      p := [e];
    } else if e in Ball(g, n - 1) {
      p := BallReached(g, n - 1, e);
    } else {
      var f :| f in Ball(g, n - 1) && Edge(f, e) in g.edges;
      var q := BallReached(g, n - 1, f);
      p := q + [e];
    }
  }

  lemma {:induction false} PathStaysInBall(g: Graph, p: seq<Entity>, e: Entity)
    requires IsPath(g, p, e)
    ensures e in Ball(g, |p| - 1)
  {
    if |p| > 1 {
      var q := p[..|p| - 1];
      PathStaysInBall(g, q, q[|q| - 1]);
      assert Edge(p[|p| - 2], p[|p| - 1]) in g.edges;
    }
  }

  lemma {:induction false} BallGrows(g: Graph, m: nat, n: nat)
    requires m <= n
    ensures Ball(g, m) <= Ball(g, n)
  {
    if m < n {
      BallGrows(g, m, n - 1);
    }
  }

  lemma NoShorterPath(g: Graph, n: nat, p: seq<Entity>, e: Entity)
    requires e in Layer(g, n) && IsPath(g, p, e)
    ensures |p| >= n + 1
  {
    PathStaysInBall(g, p, e);
    if |p| <= n { BallGrows(g, |p| - 1, n - 1); }
  }

  /** A layer holds exactly the entities whose shortest path from a seed has that many hops. */
  lemma LayerIsShortestDistance(g: Graph, n: nat, e: Entity)
    ensures e in Layer(g, n) <==>
      (exists p :: IsPath(g, p, e) && |p| == n + 1) && (forall p :: IsPath(g, p, e) ==> |p| >= n + 1)
  {
    if e in Layer(g, n) {
      var q := BallReached(g, n, e);
      forall p | IsPath(g, p, e) ensures |p| >= n + 1 {
        NoShorterPath(g, n, p, e);
      }
      assert |q| == n + 1;
    }
    if (exists p :: IsPath(g, p, e) && |p| == n + 1) && (forall p :: IsPath(g, p, e) ==> |p| >= n + 1) {
      var p :| IsPath(g, p, e) && |p| == n + 1;
      PathStaysInBall(g, p, e);
      if n > 0 && e in Ball(g, n - 1) {
        var q := BallReached(g, n - 1, e);
      }
    }
  }

  // ---------------------------------------------------------------- lists of layers

  ghost function Union(ls: seq<set<Entity>>): set<Entity> {
    if ls == [] then {} else Union(ls[..|ls| - 1]) + ls[|ls| - 1]
  }

  /** Each layer is new. */
  ghost predicate Disjoint(ls: seq<set<Entity>>) {
    ls != [] ==> Disjoint(ls[..|ls| - 1]) && Union(ls[..|ls| - 1]) !! ls[|ls| - 1]
  }

  lemma ConcatenatedSnoc(ls: seq<set<Entity>>, l: set<Entity>)
    ensures Concatenated(ls + [l]) == Concatenated(ls) + AscendingEntities(l)
  {
  }

  lemma ListsElements(s: set<Entity>)
    ensures Elements(AscendingEntities(s)) == s
  {
  }

  lemma JoinedElements(p: seq<Entity>, q: seq<Entity>)
    ensures Elements(p + q) == Elements(p) + Elements(q)
  {
  }

  lemma {:induction false} ConcatenatedElements(ls: seq<set<Entity>>)
    ensures Elements(Concatenated(ls)) == Union(ls)
  {
    if ls != [] {
      ConcatenatedElements(ls[..|ls| - 1]);
      ListsElements(ls[|ls| - 1]);
      JoinedElements(Concatenated(ls[..|ls| - 1]), AscendingEntities(ls[|ls| - 1]));
    }
  }

  lemma {:induction false} ConcatenatedSize(ls: seq<set<Entity>>)
    requires Disjoint(ls)
    ensures |Concatenated(ls)| == |Union(ls)|
  {
    if ls != [] {
      ConcatenatedSize(ls[..|ls| - 1]);
    }
  }

  lemma {:induction false} ConcatenatedPrefix(ls: seq<set<Entity>>, k: nat)
    requires k <= |ls|
    ensures Concatenated(ls[..k]) <= Concatenated(ls)
  {
    if k == |ls| {
      assert ls[..k] == ls;
    } else {
      ConcatenatedPrefix(ls[..|ls| - 1], k);
      assert ls[..|ls| - 1][..k] == ls[..k];
      PrefixOfJoin(Concatenated(ls[..k]), Concatenated(ls[..|ls| - 1]), AscendingEntities(ls[|ls| - 1]));
    }
  }

  lemma PrefixOfJoin(a: seq<Entity>, b: seq<Entity>, c: seq<Entity>)
    requires a <= b
    ensures a <= b + c
  {
  }

  // ---------------------------------------------------------------- the layers of a graph

  lemma {:induction false} LayersPrefix(g: Graph, m: nat, n: nat)
    requires m <= n
    ensures Layers(g, n)[..m + 1] == Layers(g, m)
  {
    if m < n {
      LayersPrefix(g, m, n - 1);
      assert Layers(g, n)[..m + 1] == Layers(g, n - 1)[..m + 1];
    }
  }

  lemma LayerAt(g: Graph, n: nat, i: nat)
    requires i <= n
    ensures Layers(g, n)[i] == Layer(g, i)
  {
  }

  lemma BallIsUnion(g: Graph, n: nat)
    requires n > 0
    ensures Ball(g, n) == Ball(g, n - 1) + Layer(g, n) && Ball(g, n - 1) !! Layer(g, n)
  {
  }

  lemma {:induction false} LayersMakeBall(g: Graph, n: nat)
    ensures Union(Layers(g, n)) == Ball(g, n) && Disjoint(Layers(g, n))
  {
    if n == 0 {
      SnocUnion([], Layer(g, 0));
      assert [] + [Layer(g, 0)] == Layers(g, 0);
    } else {
      LayersMakeBall(g, n - 1);
      BallIsUnion(g, n);
      SnocUnion(Layers(g, n - 1), Layer(g, n));
    }
  }

  lemma SnocUnion(ls: seq<set<Entity>>, l: set<Entity>)
    requires Disjoint(ls) && Union(ls) !! l
    ensures Union(ls + [l]) == Union(ls) + l && Disjoint(ls + [l])
  {
  }

  lemma ByDistanceListsBall(g: Graph, n: nat)
    ensures Elements(ByDistance(g, n)) == Ball(g, n) && |ByDistance(g, n)| == |Ball(g, n)|
  {
    LayersMakeBall(g, n);
    ConcatenatedElements(Layers(g, n));
    ConcatenatedSize(Layers(g, n));
  }

  lemma ByDistanceExtends(g: Graph, m: nat, n: nat)
    requires m <= n
    ensures ByDistance(g, m) <= ByDistance(g, n)
  {
    LayersPrefix(g, m, n);
    ConcatenatedPrefix(Layers(g, n), m + 1);
  }

  // ---------------------------------------------------------------- one level

  /** Neighbours of the last layer, minus everything seen, are the next layer. */
  lemma FrontierSuffices(g: Graph, n: nat)
    ensures Neighbours(g, Layer(g, n), Ball(g, n)) == Layer(g, n + 1)
  {
  }

  lemma NoFrontierNoNext(g: Graph, n: nat)
    requires Layer(g, n) == {}
    ensures Layer(g, n + 1) == {}
  {
  }

  lemma {:induction false} EmptyLayerEndsBall(g: Graph, m: nat, n: nat)
    requires m <= n && Layer(g, m) == {}
    ensures ByDistance(g, n) == ByDistance(g, m) && Layer(g, n) == {}
  {
    hide Ball, Neighbours, AscendingEntities, Concatenated;
    if m < n {
      EmptyLayerEndsBall(g, m, n - 1);
      NoFrontierNoNext(g, n - 1);
      AddEmptyLayer(Layers(g, n - 1));
    }
  }

  lemma AddEmptyLayer(ls: seq<set<Entity>>)
    ensures Concatenated(ls + [{}]) == Concatenated(ls)
  {
  }

  function Stamped(q: seq<Entity>, distance: nat): map<Entity, nat> {
    map e | e in q :: distance
  }

  /** The variables of the loop. */
  datatype Level = Level(selected: seq<Entity>, distances: map<Entity, nat>, frontier: seq<Entity>, truncated: bool)

  /** Where the loop stands after the given layers: the first 100 of them, each with the layer it
      came from; and while nothing was cut off, the frontier is the whole last layer. */
  ghost predicate AtLevel(ls: seq<set<Entity>>, v: Level) {
    && |ls| > 0
    && v.selected == Limit(Concatenated(ls), GRAPH_MAX_ENTITIES)
    && (v.truncated <==> |Concatenated(ls)| > GRAPH_MAX_ENTITIES)
    && (!v.truncated ==> v.frontier == AscendingEntities(ls[|ls| - 1]))
    && v.distances.Keys == Elements(v.selected)
    && forall e :: e in v.distances ==> v.distances[e] < |ls| && e in ls[v.distances[e]]
  }

  /** One pass of the loop, given the ordered neighbour query before its LIMIT. */
  function Advance(v: Level, found: seq<Entity>, distance: nat): (r: Level)
    requires |v.selected| <= GRAPH_MAX_ENTITIES
    ensures |r.selected| <= GRAPH_MAX_ENTITIES
  {
    var remaining := GRAPH_MAX_ENTITIES - |v.selected|;
    var rows := Limit(found, remaining + 1);
    var admitted := Limit(rows, remaining);
    Level(v.selected + admitted, v.distances + Stamped(admitted, distance), admitted,
          v.truncated || |rows| > remaining)
  }

  function FirstLevel(seeds: seq<Entity>): (r: Level)
    ensures |r.selected| <= GRAPH_MAX_ENTITIES
  {
    var rows := Limit(seeds, GRAPH_MAX_ENTITIES + 1);
    var selected := Limit(rows, GRAPH_MAX_ENTITIES);
    Level(selected, Stamped(selected, 0), selected, |rows| > GRAPH_MAX_ENTITIES)
  }

  /** The loop's variables after `d` passes. */
  ghost function LevelAt(g: Graph, d: nat): (r: Level)
    ensures |r.selected| <= GRAPH_MAX_ENTITIES
  {
    if d == 0 then FirstLevel(AscendingEntities(g.seeds)) else NextOf(g, LevelAt(g, d - 1), d)
  }

  ghost function NextOf(g: Graph, v: Level, distance: nat): (r: Level)
    requires |v.selected| <= GRAPH_MAX_ENTITIES
    ensures |r.selected| <= GRAPH_MAX_ENTITIES
  {
    Advance(v, AscendingEntities(Neighbours(g, Elements(v.frontier), v.distances.Keys)), distance)
  }

  // ---------------------------------------------------------------- the answer, in the database

  /** A walk from a matching entity to `e` by way of visible memories, each linked to the entities
      before and after it; it has |ms| hops. */
  ghost predicate IsWalk(db: Database, p: seq<Entity>, ms: seq<Id>, e: Entity) {
    && |p| == |ms| + 1 && p[|ms|] == e && (forall i :: 0 <= i < |p| ==> p[i] in db.entities)
    && p[0] in db.matching && (exists m :: m in db.visible && (p[0], m) in db.links)
    && (forall i :: 0 <= i < |ms| ==> ms[i] in db.visible && (p[i], ms[i]) in db.links && (p[i + 1], ms[i]) in db.links)
  }

  /** `n` is the length of a shortest walk to `e`. */
  ghost predicate IsDistance(db: Database, e: Entity, n: nat) {
    && (exists p, ms :: IsWalk(db, p, ms, e) && |ms| == n)
    && (forall p, ms :: IsWalk(db, p, ms, e) ==> n <= |ms|)
  }

  /** By distance, then namespace, type, normalized name and id. */
  predicate Ranked(a: Entity, m: nat, b: Entity, n: nat) {
    if m != n then m < n
    else if a.namespace != b.namespace then a.namespace < b.namespace
    else if a.kind != b.kind then a.kind < b.kind
    else if a.name != b.name then a.name < b.name
    else a.id < b.id
  }

  ghost predicate RanksSelected(selected: seq<Entity>, distances: map<Entity, nat>) {
    && (forall e :: e in selected <==> e in distances)
    && forall i, j :: 0 <= i < j < |selected| ==>
         Ranked(selected[i], distances[selected[i]], selected[j], distances[selected[j]])
  }

  /** The entity is selected, or so many walks are shorter or ranked before that it was cut off. */
  ghost predicate SelectedOrCut(
      selected: seq<Entity>, distances: map<Entity, nat>, truncated: bool, e: Entity, hops: nat)
    requires forall x :: x in selected ==> x in distances
  {
    || e in selected
    || (truncated && |selected| == GRAPH_MAX_ENTITIES
        && forall x :: x in selected ==> Ranked(x, distances[x], e, hops))
  }

  method TraverseMemoryGraph(db: Database, depth: nat)
    returns (selected: seq<Entity>, distances: map<Entity, nat>, truncated: bool)
    ensures selected == Limit(ByDistance(GraphOf(db), depth), GRAPH_MAX_ENTITIES)
    ensures distances.Keys == Elements(selected) && forall e :: e in distances ==> e in Layer(GraphOf(db), distances[e])
    ensures truncated <==> |Ball(GraphOf(db), depth)| > GRAPH_MAX_ENTITIES
    ensures RanksSelected(selected, distances) && |selected| <= GRAPH_MAX_ENTITIES
    ensures forall e :: e in distances ==> distances[e] <= depth && IsDistance(db, e, distances[e])
    ensures forall p, ms, e :: IsWalk(db, p, ms, e) && |ms| <= depth ==>
      SelectedOrCut(selected, distances, truncated, e, |ms|)
    ensures truncated ==> exists p, ms, e :: IsWalk(db, p, ms, e) && |ms| <= depth && e !in selected
  {
    hide GraphOf, AtLevel, ByDistance, Layer, Ball, RanksSelected, IsDistance, IsWalk, SelectedOrCut;
    var g := GraphOf(db);
    ghost var d: nat;
    var v: Level;
    v, d := WalkLevels(g, depth);
    LevelReached(g, d);
    LevelEnds(g, d, depth, v);
    selected, distances, truncated := v.selected, v.distances, v.truncated;
    AnswerRanks(g, depth, selected, distances, truncated);
    AnswerMeans(db, depth, selected, distances, truncated);
  }

  /** What the search over a graph returns. */
  ghost predicate IsAnswer(
      g: Graph, depth: nat, selected: seq<Entity>, distances: map<Entity, nat>, truncated: bool)
  {
    && selected == Limit(ByDistance(g, depth), GRAPH_MAX_ENTITIES)
    && distances.Keys == Elements(selected) && (forall e :: e in distances ==> e in Layer(g, distances[e]))
    && (truncated <==> |Ball(g, depth)| > GRAPH_MAX_ENTITIES)
  }

  /** Every walk is a path of the graph, and of every path there is a walk. */
  lemma WalkIsPath(db: Database, p: seq<Entity>, ms: seq<Id>, e: Entity)
    requires IsWalk(db, p, ms, e)
    ensures IsPath(GraphOf(db), p, e) && |p| == |ms| + 1
  {
    forall i | 0 < i < |p| ensures Edge(p[i - 1], p[i]) in GraphOf(db).edges {
      assert ms[i - 1] in db.visible && ShareMemory(db, p[i - 1], p[i]);
    }
  }

  lemma {:induction false} PathIsWalk(db: Database, p: seq<Entity>, e: Entity) returns (ms: seq<Id>)
    requires IsPath(GraphOf(db), p, e)
    ensures IsWalk(db, p, ms, e)
  {
    if |p| == 1 {
      ms := [];
    } else {
      var q := p[..|p| - 1];
      ms := PathIsWalk(db, q, q[|q| - 1]);
      assert Edge(p[|p| - 2], p[|p| - 1]) in GraphOf(db).edges;
      assert ShareMemory(db, p[|p| - 2], p[|p| - 1]);
      var m :| m in db.visible && (p[|p| - 2], m) in db.links && (p[|p| - 1], m) in db.links;
      ms := ms + [m];
    }
  }

  lemma LayerIsDistance(db: Database, e: Entity, n: nat)
    requires e in Layer(GraphOf(db), n)
    ensures IsDistance(db, e, n)
  {
    hide GraphOf, IsPath, IsWalk, Layer;
    var g := GraphOf(db);
    LayerIsShortestDistance(g, n, e);
    var p :| IsPath(g, p, e) && |p| == n + 1;
    var ms := PathIsWalk(db, p, e);
    WalkSize(db, p, ms, e);
    forall q, ns | IsWalk(db, q, ns, e) ensures n <= |ns| {
      WalkIsPath(db, q, ns, e);
    }
  }

  lemma WalkSize(db: Database, p: seq<Entity>, ms: seq<Id>, e: Entity)
    requires IsWalk(db, p, ms, e)
    ensures |p| == |ms| + 1
  {
  }

  lemma LayerUnique(g: Graph, e: Entity, m: nat, n: nat)
    requires e in Layer(g, m) && e in Layer(g, n)
    ensures m == n
  {
    if m < n { BallGrows(g, m, n - 1); }
    if n < m { BallGrows(g, n, m - 1); }
  }

  lemma {:induction false} LayerOf(g: Graph, n: nat, e: Entity) returns (k: nat)
    requires e in Ball(g, n)
    ensures k <= n && e in Layer(g, k)
  {
    if n > 0 && e in Ball(g, n - 1) { k := LayerOf(g, n - 1, e); } else { k := n; }
  }

  lemma {:induction false} DistanceAscends(g: Graph, n: nat, i: nat, j: nat) returns (a: nat, b: nat)
    requires i < j < |ByDistance(g, n)|
    ensures a <= b <= n && ByDistance(g, n)[i] in Layer(g, a) && ByDistance(g, n)[j] in Layer(g, b)
    ensures a == b ==> EntityLess(ByDistance(g, n)[i], ByDistance(g, n)[j])
  {
    hide ByDistance, Layer, Ball, AscendingEntities, EntityLess;
    ByDistanceParts(g, n);
    AscendingIn(Layer(g, n));
    if n == 0 {
      a, b := 0, 0;
    } else {
      var before := ByDistance(g, n - 1);
      if j < |before| {
        a, b := DistanceAscends(g, n - 1, i, j);
      } else if i < |before| {
        ByDistanceListsBall(g, n - 1);
        assert before[i] in Elements(before);
        a := LayerOf(g, n - 1, before[i]);
        b := n;
      } else {
        a, b := n, n;
      }
    }
  }

  lemma ByDistanceParts(g: Graph, n: nat)
    ensures ByDistance(g, n) == (if n == 0 then [] else ByDistance(g, n - 1)) + AscendingEntities(Layer(g, n))
  {
    hide Layer, Ball, AscendingEntities;
    if n == 0 {
      ConcatenatedSnoc([], Layer(g, 0));
      assert [] + [Layer(g, 0)] == Layers(g, 0);
    } else {
      ConcatenatedSnoc(Layers(g, n - 1), Layer(g, n));
    }
  }

  lemma AscendingIn(l: set<Entity>)
    ensures var q := AscendingEntities(l);
      && (forall i :: 0 <= i < |q| ==> q[i] in l) && (forall i, j :: 0 <= i < j < |q| ==> EntityLess(q[i], q[j]))
  {
    var q := AscendingEntities(l);
    assert forall i :: 0 <= i < |q| ==> q[i] in q;
  }

  lemma LessIsRanked(a: Entity, b: Entity, n: nat)
    requires EntityLess(a, b)
    ensures Ranked(a, n, b, n)
  {
  }

  lemma AnswerRanks(g: Graph, depth: nat, selected: seq<Entity>, distances: map<Entity, nat>, truncated: bool)
    requires IsAnswer(g, depth, selected, distances, truncated)
    ensures RanksSelected(selected, distances) && |selected| <= GRAPH_MAX_ENTITIES
  {
    hide Layer, Ball, ByDistance, EntityLess, Ranked;
    forall i, j | 0 <= i < j < |selected|
      ensures selected[i] in distances && selected[j] in distances
              && Ranked(selected[i], distances[selected[i]], selected[j], distances[selected[j]])
    {
      assert selected[i] in Elements(selected) && selected[j] in Elements(selected);
      forall n: nat | selected[j] in Layer(g, n) ensures n == distances[selected[j]] {
        LayerUnique(g, selected[j], n, distances[selected[j]]);
      }
      RankedAt(g, depth, selected, distances, truncated, i, j, distances[selected[j]]);
    }
  }

  /** What is selected ranks before everything of the ball behind it, at its distance or farther. */
  lemma RankedAt(
      g: Graph, depth: nat, selected: seq<Entity>, distances: map<Entity, nat>, truncated: bool,
      i: nat, j: nat, hops: nat)
    requires IsAnswer(g, depth, selected, distances, truncated) && i < |selected| && i < j < |ByDistance(g, depth)|
    requires forall n: nat :: ByDistance(g, depth)[j] in Layer(g, n) ==> n <= hops
    ensures selected[i] in distances && Ranked(selected[i], distances[selected[i]], ByDistance(g, depth)[j], hops)
  {
    hide Layer, Ball, ByDistance, EntityLess;
    var a, b := DistanceAscends(g, depth, i, j);
    assert selected[i] in Elements(selected);
    LayerUnique(g, selected[i], distances[selected[i]], a);
    if a == b { LessIsRanked(selected[i], ByDistance(g, depth)[j], a); }
  }

  lemma AnswerMeans(db: Database, depth: nat, selected: seq<Entity>, distances: map<Entity, nat>, truncated: bool)
    requires IsAnswer(GraphOf(db), depth, selected, distances, truncated)
    ensures forall e :: e in selected ==> e in distances
    ensures forall e :: e in distances ==> distances[e] <= depth && IsDistance(db, e, distances[e])
    ensures forall p, ms, e :: IsWalk(db, p, ms, e) && |ms| <= depth ==>
      SelectedOrCut(selected, distances, truncated, e, |ms|)
    ensures truncated ==> exists p, ms, e :: IsWalk(db, p, ms, e) && |ms| <= depth && e !in selected
  {
    hide GraphOf, Layer, Ball, ByDistance, IsDistance, IsWalk, SelectedOrCut;
    forall e | e in distances ensures distances[e] <= depth && IsDistance(db, e, distances[e]) {
      DistanceMeans(db, depth, selected, distances, truncated, e);
    }
    forall p, ms, e | IsWalk(db, p, ms, e) && |ms| <= depth
      ensures SelectedOrCut(selected, distances, truncated, e, |ms|)
    {
      WalkIsSelectedOrCut(db, depth, selected, distances, truncated, p, ms, e);
    }
    if truncated {
      var p, ms, e := CutOffWalk(db, depth, selected, distances, truncated);
    }
  }

  lemma DistanceMeans(
      db: Database, depth: nat, selected: seq<Entity>, distances: map<Entity, nat>, truncated: bool, e: Entity)
    requires IsAnswer(GraphOf(db), depth, selected, distances, truncated) && e in distances
    ensures distances[e] <= depth && IsDistance(db, e, distances[e])
  {
    hide GraphOf, Layer, Ball, ByDistance, IsDistance;
    var g := GraphOf(db);
    LayerIsDistance(db, e, distances[e]);
    ByDistanceListsBall(g, depth);
    assert e in selected && e in ByDistance(g, depth) && e in Elements(ByDistance(g, depth));
    var k := LayerOf(g, depth, e);
    LayerUnique(g, e, k, distances[e]);
  }

  lemma WalkIsSelectedOrCut(
      db: Database, depth: nat, selected: seq<Entity>, distances: map<Entity, nat>, truncated: bool,
      p: seq<Entity>, ms: seq<Id>, e: Entity)
    requires IsAnswer(GraphOf(db), depth, selected, distances, truncated) && IsWalk(db, p, ms, e) && |ms| <= depth
    ensures forall x :: x in selected ==> x in distances
    ensures SelectedOrCut(selected, distances, truncated, e, |ms|)
  {
    hide GraphOf, Layer, Ball, ByDistance, IsPath, IsWalk, Ranked;
    var g := GraphOf(db);
    WalkIsPath(db, p, ms, e);
    PathStaysInBall(g, p, e);
    BallGrows(g, |ms|, depth);
    ByDistanceListsBall(g, depth);
    var q := ByDistance(g, depth);
    assert e in Elements(q);
    var j :| 0 <= j < |q| && q[j] == e;
    if j < |selected| {
      assert selected[j] == e;
    } else {
      forall n: nat | e in Layer(g, n) ensures n <= |ms| {
        LayerIsShortestDistance(g, n, e);
      }
      forall x | x in selected ensures x in distances && Ranked(x, distances[x], e, |ms|) {
        var i :| 0 <= i < |selected| && selected[i] == x;
        RankedAt(g, depth, selected, distances, truncated, i, j, |ms|);
      }
    }
  }

  lemma CutOffWalk(db: Database, depth: nat, selected: seq<Entity>, distances: map<Entity, nat>, truncated: bool)
    returns (p: seq<Entity>, ms: seq<Id>, e: Entity)
    requires IsAnswer(GraphOf(db), depth, selected, distances, truncated) && truncated
    ensures IsWalk(db, p, ms, e) && |ms| <= depth && e !in selected
  {
    hide GraphOf, Layer, Ball, ByDistance, IsPath, IsWalk, EntityLess;
    var g := GraphOf(db);
    ByDistanceListsBall(g, depth);
    var q := ByDistance(g, depth);
    e := q[GRAPH_MAX_ENTITIES];
    assert e in Elements(q);
    if e in selected {
      var i :| 0 <= i < |selected| && selected[i] == e;
      var a, b := DistanceAscends(g, depth, i, GRAPH_MAX_ENTITIES);
      LayerUnique(g, e, a, b);
      LessIsRanked(e, e, a);
    }
    p := BallReached(g, depth, e);
    ms := PathIsWalk(db, p, e);
    WalkSize(db, p, ms, e);
  }

  method WalkLevels(g: Graph, depth: nat) returns (v: Level, ghost d: nat)
    ensures v == LevelAt(g, d) && d <= depth && (d == depth || v.frontier == [])
  {
    hide Advance, FirstLevel, Neighbours;
    var seeds := ListEntities(g.seeds);
    v, d := FirstLevel(seeds), 0;
    var distance := 1;
    while distance <= depth && v.frontier != []
      invariant distance == d + 1 && d <= depth && v == LevelAt(g, d)
    {
      var found := ListEntities(Neighbours(g, Elements(v.frontier), v.distances.Keys));
      v := ExpandLevel(v, found, distance);
      d := d + 1;
      distance := distance + 1;
    }
  }

  lemma {:induction false} LevelReached(g: Graph, d: nat)
    ensures AtLevel(Layers(g, d), LevelAt(g, d))
  {
    hide AtLevel, NextOf, FirstLevel, Advance, Ball, Neighbours, AscendingEntities;
    if d == 0 {
      SeedsReached(g);
    } else {
      LevelReached(g, d - 1);
      LevelAdvances(g, d - 1, LevelAt(g, d - 1));
    }
  }

  lemma SeedsReached(g: Graph)
    ensures AtLevel([g.seeds], FirstLevel(AscendingEntities(g.seeds)))
  {
  }

  method ExpandLevel(v: Level, found: seq<Entity>, distance: nat) returns (r: Level)
    requires |v.selected| <= GRAPH_MAX_ENTITIES
    ensures r == Advance(v, found, distance)
  {
    hide Limit, Stamped;
    var remaining := GRAPH_MAX_ENTITIES - |v.selected|;
    var rows := Limit(found, remaining + 1);
    r := v;
    if |rows| > remaining { r := r.(truncated := true); }
    var admitted := Limit(rows, remaining);
    r := r.(selected := v.selected + admitted);
    r := r.(distances := v.distances + Stamped(admitted, distance));
    r := r.(frontier := admitted);
  }

  lemma NextLayerFound(g: Graph, d: nat, v: Level)
    requires AtLevel(Layers(g, d), v)
    ensures !v.truncated ==> Neighbours(g, Elements(v.frontier), v.distances.Keys) == Layer(g, d + 1)
  {
    if !v.truncated {
      LayerAt(g, d, d);
      ListsElements(Layer(g, d));
      ByDistanceListsBall(g, d);
      FrontierSuffices(g, d);
    }
  }

  lemma LevelAdvances(g: Graph, d: nat, v: Level)
    requires AtLevel(Layers(g, d), v)
    ensures AtLevel(Layers(g, d + 1), NextOf(g, v, d + 1))
  {
    NextLayerFound(g, d, v);
    ListAdvances(Layers(g, d), Layer(g, d + 1), v,
      AscendingEntities(Neighbours(g, Elements(v.frontier), v.distances.Keys)));
  }

  lemma ListAdvances(ls: seq<set<Entity>>, next: set<Entity>, v: Level, found: seq<Entity>)
    requires AtLevel(ls, v) && (!v.truncated ==> found == AscendingEntities(next))
    ensures AtLevel(ls + [next], Advance(v, found, |ls|))
  {
    ConcatenatedSnoc(ls, next);
    LimitOfJoin(Concatenated(ls), AscendingEntities(next), found, v.truncated);
    DistancesAdvance(ls, next, v, found);
  }

  lemma DistancesAdvance(ls: seq<set<Entity>>, next: set<Entity>, v: Level, found: seq<Entity>)
    requires |v.selected| <= GRAPH_MAX_ENTITIES && v.distances.Keys == Elements(v.selected)
    requires forall e :: e in v.distances ==> v.distances[e] < |ls| && e in ls[v.distances[e]]
    requires |v.selected| == GRAPH_MAX_ENTITIES || (forall e :: e in found ==> e in next)
    ensures var r := Advance(v, found, |ls|);
      && r.distances.Keys == Elements(r.selected)
      && forall e :: e in r.distances ==> r.distances[e] < |ls + [next]| && e in (ls + [next])[r.distances[e]]
  {
  }

  /** Cutting the parts to what is left is cutting the whole. */
  lemma LimitOfJoin(p: seq<Entity>, q: seq<Entity>, found: seq<Entity>, truncated: bool)
    requires (truncated <==> |p| > GRAPH_MAX_ENTITIES) && (!truncated ==> found == q)
    ensures var kept := Limit(p, GRAPH_MAX_ENTITIES);
      kept + Limit(Limit(found, GRAPH_MAX_ENTITIES - |kept| + 1), GRAPH_MAX_ENTITIES - |kept|) ==
        Limit(p + q, GRAPH_MAX_ENTITIES)
  {
  }

  lemma LevelEnds(g: Graph, d: nat, depth: nat, v: Level)
    requires AtLevel(Layers(g, d), v) && d <= depth && (d == depth || v.frontier == [])
    ensures v.selected == Limit(ByDistance(g, depth), GRAPH_MAX_ENTITIES)
    ensures v.truncated <==> |Ball(g, depth)| > GRAPH_MAX_ENTITIES
    ensures v.distances.Keys == Elements(v.selected) && forall e :: e in v.distances ==> e in Layer(g, v.distances[e])
  {
    forall e | e in v.distances ensures e in Layer(g, v.distances[e]) {
      LayerAt(g, d, v.distances[e]);
    }
    ByDistanceListsBall(g, depth);
    ByDistanceExtends(g, d, depth);
    if !v.truncated && d < depth {
      LayerAt(g, d, d);
      ListsElements(Layer(g, d));
      EmptyLayerEndsBall(g, d, depth);
    }
  }
}
