/** The AI's navigation graph: a vector of vertices with adjacency lists, its insertions, and
    its two nearest-vertex searches. An adjacency list points at vertices; a pointer is
    modelled as the position of its vertex in the vector. */
module AiGraph {
  import opened Distance

  // Vertex ids are 16-bit and come from a counter that wraps.
  const ID_LIMIT: nat := 0x1_0000

  datatype Vertex = Vertex(at: Point, id: nat)

  datatype Node = Node(vertex: Vertex, adj: seq<nat>)

  datatype State = State(nodes: seq<Node>, count: nat)

  const EMPTY := State([], 0)

  datatype Op =
    | AddVertex(p: Point)
    | AddEdge(id0: nat, id1: nat)

  function Appended(nodes: seq<Node>, at: nat, target: nat): (r: seq<Node>)
    requires at < |nodes|
    ensures |r| == |nodes|
  {
    nodes[at := nodes[at].(adj := nodes[at].adj + [target])]
  }

  // An edge between ids the vector does not have is an exception that changes nothing.
  function Apply(s: State, op: Op): State {
    match op
    case AddVertex(p) =>
      State(s.nodes + [Node(Vertex(p, s.count), [])], (s.count + 1) % ID_LIMIT)
    case AddEdge(a, b) =>
      if a < |s.nodes| && b < |s.nodes| then
        s.(nodes := Appended(Appended(s.nodes, a, b), b, a))
      else s
  }

  function Run(ops: seq<Op>): State {
    if ops == [] then EMPTY else Apply(Run(ops[..|ops| - 1]), ops[|ops| - 1])
  }

  // ---------- What every sequence of insertions keeps ----------

  // An id argument is a 16-bit number.
  ghost predicate IdsFit(ops: seq<Op>) {
    forall i :: 0 <= i < |ops| && ops[i].AddEdge? ==> ops[i].id0 < ID_LIMIT && ops[i].id1 < ID_LIMIT
  }

  ghost predicate Valid(s: State) {
    && s.count == |s.nodes| % ID_LIMIT
    && (forall i :: 0 <= i < |s.nodes| ==> s.nodes[i].vertex.id == i % ID_LIMIT)
    && (forall i, k :: 0 <= i < |s.nodes| && 0 <= k < |s.nodes[i].adj| ==>
          s.nodes[i].adj[k] < |s.nodes| && s.nodes[i].adj[k] < ID_LIMIT)
  }

  lemma NextCount(n: nat)
    ensures (n % ID_LIMIT + 1) % ID_LIMIT == (n + 1) % ID_LIMIT
  {
  }

  lemma AddVertexValid(s: State, p: Point)
    requires Valid(s)
    ensures Valid(Apply(s, AddVertex(p)))
  {
    NextCount(|s.nodes|);
  }

  lemma AppendedValid(s: State, a: nat, b: nat)
    requires Valid(s) && a < |s.nodes| && b < |s.nodes| && b < ID_LIMIT
    ensures Valid(s.(nodes := Appended(s.nodes, a, b)))
  {
  }

  lemma {:induction false} RunValid(ops: seq<Op>)
    requires IdsFit(ops)
    ensures Valid(Run(ops))
  {
    if ops != [] {
      var before := Run(ops[..|ops| - 1]);
      RunValid(ops[..|ops| - 1]);
      match ops[|ops| - 1]
      case AddVertex(p) => AddVertexValid(before, p);
      case AddEdge(a, b) =>
        if a < |before.nodes| && b < |before.nodes| {
          AppendedValid(before, a, b);
          AppendedValid(before.(nodes := Appended(before.nodes, a, b)), b, a);
        }
    }
  }

  // Ids equal positions exactly as long as the counter has not wrapped.
  lemma IdsArePositions(ops: seq<Op>)
    requires IdsFit(ops)
    ensures (forall i :: 0 <= i < |Run(ops).nodes| ==> Run(ops).nodes[i].vertex.id == i)
       <==> |Run(ops).nodes| <= 65536
  {
    RunValid(ops);
    if |Run(ops).nodes| > ID_LIMIT {
      assert Run(ops).nodes[ID_LIMIT].vertex.id == ID_LIMIT % ID_LIMIT == 0;
    }
  }

  // How often v is listed as a neighbour of u.
  function Count(s: State, u: nat, v: nat): nat
    requires u < |s.nodes|
  {
    multiset(s.nodes[u].adj)[v]
  }

  lemma AppendedCount(nodes: seq<Node>, at: nat, target: nat, u: nat, v: nat)
    requires at < |nodes| && u < |nodes|
    ensures multiset(Appended(nodes, at, target)[u].adj)[v]
         == multiset(nodes[u].adj)[v] + if u == at && v == target then 1 else 0
  {
  }

  ghost predicate SymmetricCounts(s: State) {
    forall u, v :: 0 <= u < |s.nodes| && 0 <= v < |s.nodes| ==> Count(s, u, v) == Count(s, v, u)
  }

  // Adjacency is symmetric as a multiset, parallel edges and self-loops included.
  lemma {:induction false} RunSymmetric(ops: seq<Op>)
    requires IdsFit(ops)
    ensures SymmetricCounts(Run(ops))
  {
    if ops != [] {
      var before, op := Run(ops[..|ops| - 1]), ops[|ops| - 1];
      RunSymmetric(ops[..|ops| - 1]);
      RunValid(ops[..|ops| - 1]);
      forall u, v | 0 <= u < |Run(ops).nodes| && 0 <= v < |Run(ops).nodes|
        ensures Count(Run(ops), u, v) == Count(Run(ops), v, u)
      {
        match op
        case AddVertex(p) =>
          VertexCount(before, p, u, v);
          VertexCount(before, p, v, u);
        case AddEdge(a, b) =>
          if a < |before.nodes| && b < |before.nodes| {
            EdgeCount(before, a, b, u, v);
            EdgeCount(before, a, b, v, u);
          }
      }
    }
  }

  // A new vertex has no neighbours, and nobody points at its position yet.
  lemma VertexCount(s: State, p: Point, u: nat, v: nat)
    requires Valid(s) && u <= |s.nodes| && v <= |s.nodes|
    ensures Count(Apply(s, AddVertex(p)), u, v) == if u < |s.nodes| && v < |s.nodes| then Count(s, u, v) else 0
  {
    if u < |s.nodes| {
      assert |s.nodes| !in s.nodes[u].adj;
    }
  }

  lemma EdgeCount(s: State, a: nat, b: nat, u: nat, v: nat)
    requires a < |s.nodes| && b < |s.nodes| && u < |s.nodes|
    ensures Count(Apply(s, AddEdge(a, b)), u, v)
         == Count(s, u, v) + (if u == a && v == b then 1 else 0) + (if u == b && v == a then 1 else 0)
  {
    AppendedCount(s.nodes, a, b, u, v);
    AppendedCount(Appended(s.nodes, a, b), b, a, u, v);
  }

  function DegreeSum(nodes: seq<Node>): nat {
    if nodes == [] then 0 else DegreeSum(nodes[..|nodes| - 1]) + |nodes[|nodes| - 1].adj|
  }

  // The edge insertions that both endpoints existed for.
  function Edges(ops: seq<Op>): nat {
    if ops == [] then 0
    else
      var before, op := Run(ops[..|ops| - 1]), ops[|ops| - 1];
      Edges(ops[..|ops| - 1])
        + if op.AddEdge? && op.id0 < |before.nodes| && op.id1 < |before.nodes| then 1 else 0
  }

  lemma {:induction false} AppendedDegrees(nodes: seq<Node>, at: nat, target: nat)
    requires at < |nodes|
    ensures DegreeSum(Appended(nodes, at, target)) == DegreeSum(nodes) + 1
  {
    var n := |nodes| - 1;
    if at < n {
      AppendedDegrees(nodes[..n], at, target);
      assert Appended(nodes, at, target)[..n] == Appended(nodes[..n], at, target);
    } else {
      assert Appended(nodes, at, target)[..n] == nodes[..n];
    }
  }

  // The degrees sum to twice the number of edges.
  lemma {:induction false} DegreesAreTwiceEdges(ops: seq<Op>)
    ensures DegreeSum(Run(ops).nodes) == 2 * Edges(ops)
  {
    if ops != [] {
      var before, op := Run(ops[..|ops| - 1]), ops[|ops| - 1];
      DegreesAreTwiceEdges(ops[..|ops| - 1]);
      match op
      case AddVertex(p) =>
        assert Run(ops).nodes[..|before.nodes|] == before.nodes;
      case AddEdge(a, b) =>
        if a < |before.nodes| && b < |before.nodes| {
          AppendedDegrees(before.nodes, a, b);
          AppendedDegrees(Appended(before.nodes, a, b), b, a);
        }
    }
  }

  // ---------- What is inserted is what is there ----------

  // The points of the vertices inserted, in order.
  function Points(ops: seq<Op>): seq<Point> {
    if ops == [] then []
    else
      var most, last := ops[..|ops| - 1], ops[|ops| - 1];
      if last.AddVertex? then Points(most) + [last.p] else Points(most)
  }

  // Where the vertices are.
  function Places(nodes: seq<Node>): (ps: seq<Point>)
    ensures |ps| == |nodes|
  {
    seq(|nodes|, i requires 0 <= i < |nodes| => nodes[i].vertex.at)
  }

  lemma {:induction false} PlacesAreInserted(ops: seq<Op>)
    ensures Places(Run(ops).nodes) == Points(ops)
  {
    if ops != [] {
      var before, op := Run(ops[..|ops| - 1]), ops[|ops| - 1];
      PlacesAreInserted(ops[..|ops| - 1]);
      match op
      case AddVertex(p) => assert Places(Run(ops).nodes) == Places(before.nodes) + [p];
      case AddEdge(a, b) => assert Places(Run(ops).nodes) == Places(before.nodes);
    }
  }

  // The other ends of the edges inserted at u, in order; a loop counts twice. An edge counts if
  // both its ends had been inserted before it.
  function Ends(ops: seq<Op>, u: nat): seq<nat> {
    if ops == [] then []
    else
      var most, last := ops[..|ops| - 1], ops[|ops| - 1];
      if last.AddEdge? && last.id0 < |Points(most)| && last.id1 < |Points(most)| then
        Ends(most, u) + (if last.id0 == u then [last.id1] else []) + (if last.id1 == u then [last.id0] else [])
      else Ends(most, u)
  }

  lemma {:induction false} NoEndsYet(ops: seq<Op>, u: nat)
    requires |Points(ops)| <= u
    ensures Ends(ops, u) == []
  {
    if ops != [] { NoEndsYet(ops[..|ops| - 1], u); }
  }

  lemma AppendedAt(nodes: seq<Node>, at: nat, target: nat, u: nat)
    requires at < |nodes| && u < |nodes|
    ensures Appended(nodes, at, target)[u].adj == nodes[u].adj + if u == at then [target] else []
  {
  }

  // Every adjacency list holds the other ends of its vertex's edges, in the order of insertion.
  lemma {:induction false} AdjacencyIsInserted(ops: seq<Op>, u: nat)
    requires u < |Run(ops).nodes|
    ensures Run(ops).nodes[u].adj == Ends(ops, u)
  {
    var most, last := ops[..|ops| - 1], ops[|ops| - 1];
    var before := Run(most);
    PlacesAreInserted(most);
    match last
    case AddVertex(p) =>
      if u < |before.nodes| {
        AdjacencyIsInserted(most, u);
      } else {
        NoEndsYet(most, u);
      }
    case AddEdge(a, b) =>
      AdjacencyIsInserted(most, u);
      if a < |before.nodes| && b < |before.nodes| {
        AppendedAt(before.nodes, a, b, u);
        AppendedAt(Appended(before.nodes, a, b), b, a, u);
      }
  }

  // ---------- Nearest vertices ----------

  // k is the first position of the least of the first n elements.
  ghost predicate LeastOf(ds: seq<nat>, n: nat, k: int)
    requires n <= |ds|
  {
    && 0 <= k < n
    && (forall j :: 0 <= j < n ==> ds[k] <= ds[j])
    && (forall j :: 0 <= j < k ==> ds[k] < ds[j])
  }

  ghost predicate FirstLeast(ds: seq<nat>, k: int) {
    LeastOf(ds, |ds|, k)
  }

  // A search has looked at n distances: the least so far and where it first occurred, or the
  // sentinel when there was none.
  ghost predicate Searched(ds: seq<nat>, n: nat, least: int, k: int)
    requires n <= |ds|
  {
    if n == 0 then least == INT_MAX else LeastOf(ds, n, k) && least == ds[k]
  }

  lemma SearchStep(ds: seq<nat>, n: nat, least: int, k: int)
    requires n < |ds| && Searched(ds, n, least, k) && ds[n] < INT_MAX
    ensures if ds[n] < least then Searched(ds, n + 1, ds[n], n) else Searched(ds, n + 1, least, k)
  {
  }

  // The vertices an id can name.
  function Named(nodes: seq<Node>): (r: seq<Node>)
    ensures |r| <= ID_LIMIT && |r| <= |nodes|
  {
    if |nodes| <= ID_LIMIT then nodes else nodes[..ID_LIMIT]
  }

  // Squared distances to p fit the int they are stored in.
  ghost predicate SquaresFit(nodes: seq<Node>, p: Point) {
    forall i :: 0 <= i < |nodes| ==> Squared(nodes[i].vertex.at, p) <= INT_MAX
  }

  // Vertex k is nearly the nearest of a number of vertices: its true squared distance is above
  // the true minimum by at most twice its floored distance.
  ghost predicate NearlyNearest(points: seq<Point>, p: Point, k: int) {
    && 0 <= k < |points|
    && forall j :: 0 <= j < |points| ==> Squared(points[k], p) <= Squared(points[j], p) + 2 * Between(points[k], p)
  }

  function Distances(points: seq<Point>, p: Point): (ds: seq<nat>)
    ensures |ds| == |points|
  {
    seq(|points|, i requires 0 <= i < |points| => Between(points[i], p))
  }

  // Whatever has the least floored distance is nearly the nearest.
  lemma LeastIsNearlyNearest(points: seq<Point>, p: Point, k: int)
    requires FirstLeast(Distances(points, p), k)
    ensures NearlyNearest(points, p, k)
  {
    forall j | 0 <= j < |points|
      ensures Squared(points[k], p) <= Squared(points[j], p) + 2 * Between(points[k], p)
    {
      var d, e := Distances(points, p)[k], Distances(points, p)[j];
      RootExcess(Squared(points[k], p), Squared(points[j], p), d, e);
    }
  }

  // Where the neighbours of a vertex are.
  function NeighbourPlaces(nodes: seq<Node>, u: nat): (ps: seq<Point>)
    requires u < |nodes| && forall k :: 0 <= k < |nodes[u].adj| ==> nodes[u].adj[k] < |nodes|
    ensures |ps| == |nodes[u].adj|
  {
    seq(|nodes[u].adj|, k requires 0 <= k < |nodes[u].adj| => nodes[nodes[u].adj[k]].vertex.at)
  }

  // Looking again at a vertex that has been looked at changes nothing.
  lemma SeenAgain(ds: seq<nat>, least: int, k: int, i: nat)
    requires i < |ds| && Searched(ds, |ds|, least, k)
    ensures least <= ds[i]
  {
  }

  lemma NeighbourDistance(s: State, u: nat, i: nat)
    requires Valid(s) && u < |s.nodes| && i < |s.nodes[u].adj|
    ensures s.nodes[u].adj[i] < |s.nodes| && s.nodes[s.nodes[u].adj[i]].vertex.id == s.nodes[u].adj[i]
    ensures Distances(NeighbourPlaces(s.nodes, u), s.nodes[u].vertex.at)[i]
         == Between(s.nodes[s.nodes[u].adj[i]].vertex.at, s.nodes[u].vertex.at)
  {
  }

  class Graph {
    var nodes: seq<Node>
    var count: nat

    ghost function Value(): State
      reads this
    {
      State(nodes, count)
    }

    constructor ()
      ensures Value() == EMPTY
    {
      nodes, count := [], 0;
    }

    method AddVertexAt(p: Point) returns (id: nat)
      modifies this
      ensures Value() == Apply(old(Value()), AddVertex(p))
      ensures id == old(count)
    {
      var v := Vertex(p, count);
      count := (count + 1) % ID_LIMIT;
      nodes := nodes + [Node(v, [])];
      id := v.id;
    }

    method AddEdgeBetween(id0: nat, id1: nat) returns (ok: bool)
      modifies this
      ensures Value() == Apply(old(Value()), AddEdge(id0, id1))
      ensures ok <==> id0 < |old(nodes)| && id1 < |old(nodes)|
    {
      ok := id0 < |nodes| && id1 < |nodes|;
      if ok {
        nodes := Appended(nodes, id0, id1);
        nodes := Appended(nodes, id1, id0);
      }
    }

    // get_distance by id; the lookup of an id always succeeds for an id of this graph.
    method GetDistance(id: nat, p: Point) returns (d: nat)
      requires id < |nodes| && Squared(nodes[id].vertex.at, p) <= INT_MAX
      ensures d == Between(nodes[id].vertex.at, p) < INT_MAX
    {
      BelowSentinel(nodes[id].vertex.at, p);
      d := FloorSqrt(Squared(nodes[id].vertex.at, p));
    }

    // Search of an adjacency list. The response is an id; for a vertex without neighbours
    // it is the vertex itself.
    method ClosestNeighbour(vertId: nat) returns (response: nat, ghost k: int)
      requires Valid(Value()) && vertId < |nodes| && vertId < ID_LIMIT
      requires SquaresFit(nodes, nodes[vertId].vertex.at)
      ensures nodes[vertId].adj == [] ==> response == vertId
      ensures nodes[vertId].adj != [] ==>
                && FirstLeast(Distances(NeighbourPlaces(nodes, vertId), nodes[vertId].vertex.at), k)
                && NearlyNearest(NeighbourPlaces(nodes, vertId), nodes[vertId].vertex.at, k)
                && response == nodes[vertId].adj[k]
    {
      hide Distance.Squared, Distance.IsRoot, Distance.Between;
      var minDistance := INT_MAX;
      var closestId := vertId;
      var adjacency := nodes[vertId].adj;
      ghost var places := NeighbourPlaces(nodes, vertId);
      ghost var ds := Distances(places, nodes[vertId].vertex.at);
      k := -1;
      for i := 0 to |adjacency|
        invariant Searched(ds, i, minDistance, k)
        invariant closestId == if i == 0 then vertId else adjacency[k]
      {
        var current := nodes[adjacency[i]].vertex;
        var distance := GetDistance(current.id, nodes[vertId].vertex.at);
        NeighbourDistance(Value(), vertId, i);
        SearchStep(ds, i, minDistance, k);
        if distance < minDistance {
          minDistance := distance;
          closestId := current.id;
          k := i;
        }
      }
      if adjacency != [] { LeastIsNearlyNearest(places, nodes[vertId].vertex.at, k); }
      response := closestId;
    }

    // Search of all vertices. On an empty graph the response is whatever the result variable
    // held before, since nothing ever assigns it.
    method ClosestToPoint(p: Point, uninitialised: nat) returns (response: nat)
      requires Valid(Value()) && SquaresFit(nodes, p)
      ensures nodes == [] ==> response == uninitialised
      ensures nodes != [] ==>
                && FirstLeast(Distances(Places(Named(nodes)), p), response)
                && NearlyNearest(Places(Named(nodes)), p, response)
    {
      hide Distance.Squared, Distance.IsRoot, Distance.Between;
      var minDistance := INT_MAX;
      var closestId := uninitialised;
      ghost var places := Places(Named(nodes));
      ghost var ds := Distances(places, p);
      for i := 0 to |nodes|
        invariant i == 0 ==> closestId == uninitialised
        invariant Searched(ds, if i <= |ds| then i else |ds|, minDistance, closestId)
      {
        var current := nodes[i].vertex;
        var distance := GetDistance(current.id, p);
        IdDistance(nodes, p, i);
        if i < |ds| {
          SearchStep(ds, i, minDistance, closestId);
        } else {
          SeenAgain(ds, minDistance, closestId, current.id);
        }
        if distance < minDistance {
          minDistance := distance;
          closestId := current.id;
        }
      }
      if nodes != [] { LeastIsNearlyNearest(places, p, closestId); }
      response := closestId;
    }
  }

  // The distance looked up by the id of vertex i is the one of the vertex that id names.
  lemma IdDistance(nodes: seq<Node>, p: Point, i: nat)
    requires i < |nodes| && nodes[i].vertex.id == i % ID_LIMIT
    ensures var ds := Distances(Places(Named(nodes)), p);
      && nodes[i].vertex.id < |ds| && ds[nodes[i].vertex.id] == Between(nodes[nodes[i].vertex.id].vertex.at, p)
      && (i < |ds| ==> nodes[i].vertex.id == i)
  {
    IdInRange(|nodes|, i);
  }

  lemma IdInRange(n: nat, i: nat)
    requires i < n
    ensures i % ID_LIMIT <= i && i % ID_LIMIT < ID_LIMIT && (i < ID_LIMIT ==> i % ID_LIMIT == i)
  {
  }

  // ---------- The searches, in terms of what was inserted ----------

  // The points an id can name.
  function NamedPoints(ops: seq<Op>): (ps: seq<Point>)
    ensures |ps| <= 65536
  {
    if |Points(ops)| <= 65536 then Points(ops) else Points(ops)[..65536]
  }

  // k is the first of these points at the least floored distance from p, and nearly the nearest.
  ghost predicate FirstNearest(points: seq<Point>, p: Point, k: int) {
    && 0 <= k < |points|
    && (forall j :: 0 <= j < |points| ==> Between(points[k], p) <= Between(points[j], p))
    && (forall j :: 0 <= j < k ==> Between(points[k], p) < Between(points[j], p))
    && NearlyNearest(points, p, k)
  }

  lemma FirstLeastIsNearest(points: seq<Point>, p: Point, k: int)
    requires FirstLeast(Distances(points, p), k)
    ensures FirstNearest(points, p, k)
  {
    LeastIsNearlyNearest(points, p, k);
    forall j | 0 <= j < |points| ensures Distances(points, p)[j] == Between(points[j], p) {}
    forall j | 0 <= j < |points| ensures Between(points[k], p) <= Between(points[j], p) {
      assert Distances(points, p)[k] <= Distances(points, p)[j];
    }
    forall j | 0 <= j < k ensures Between(points[k], p) < Between(points[j], p) {
      assert Distances(points, p)[k] < Distances(points, p)[j];
    }
  }

  lemma NamedPlaces(ops: seq<Op>)
    ensures Places(Named(Run(ops).nodes)) == NamedPoints(ops)
  {
    PlacesAreInserted(ops);
  }

  // Build a graph by these insertions and search all its vertices: the response is the first
  // vertex inserted whose point is at the least distance.
  method BuildAndSearch(ops: seq<Op>, p: Point) returns (response: nat)
    requires IdsFit(ops) && Points(ops) != []
    requires forall i :: 0 <= i < |Points(ops)| ==> Squared(Points(ops)[i], p) <= INT_MAX
    ensures FirstNearest(NamedPoints(ops), p, response)
  {
    var graph := new Graph();
    for i := 0 to |ops|
      invariant graph.Value() == Run(ops[..i])
    {
      assert ops[..i + 1][..i] == ops[..i];
      match ops[i]
      case AddVertex(q) => var id := graph.AddVertexAt(q);
      case AddEdge(a, b) => var ok := graph.AddEdgeBetween(a, b);
    }
    assert ops[..|ops|] == ops;
    RunValid(ops);
    PlacesAreInserted(ops);
    assert forall i :: 0 <= i < |graph.nodes| ==> graph.nodes[i].vertex.at == Points(ops)[i];
    response := graph.ClosestToPoint(p, 0);
    NamedPlaces(ops);
    FirstLeastIsNearest(NamedPoints(ops), p, response);
  }

  // And where the neighbours of a vertex are: at the points of its edges' other ends.
  lemma NeighboursAreInserted(ops: seq<Op>, u: nat)
    requires IdsFit(ops) && u < |Run(ops).nodes| && Valid(Run(ops))
    ensures forall k :: 0 <= k < |Ends(ops, u)| ==> Ends(ops, u)[k] < |Points(ops)|
    ensures NeighbourPlaces(Run(ops).nodes, u)
         == seq(|Ends(ops, u)|, k requires 0 <= k < |Ends(ops, u)| => Points(ops)[Ends(ops, u)[k]])
  {
    AdjacencyIsInserted(ops, u);
    PlacesAreInserted(ops);
    forall i | 0 <= i < |Run(ops).nodes| ensures Run(ops).nodes[i].vertex.at == Points(ops)[i] {
      assert Places(Run(ops).nodes)[i] == Points(ops)[i];
    }
  }
}
