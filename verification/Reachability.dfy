/** Paths of a relation, and the closure argument that every breadth-first search needs. */
module Paths {
  ghost predicate IsPath<T(!new)>(step: (T, T) -> bool, p: seq<T>) {
    |p| > 0 && forall i :: 0 <= i < |p| - 1 ==> step(p[i], p[i + 1])
  }

  ghost predicate Joins<T(!new)>(step: (T, T) -> bool, p: seq<T>, a: T, b: T) {
    IsPath(step, p) && p[0] == a && p[|p| - 1] == b
  }

  ghost predicate Reaches<T(!new)>(step: (T, T) -> bool, a: T, b: T) {
    exists p :: Joins(step, p, a, b)
  }

  lemma ReachesSelf<T(!new)>(step: (T, T) -> bool, a: T)
    ensures Reaches(step, a, a)
  {
    assert Joins(step, [a], a, a);
  }

  lemma ReachesNext<T(!new)>(step: (T, T) -> bool, a: T, b: T, c: T)
    requires Reaches(step, a, b) && step(b, c)
    ensures Reaches(step, a, c)
  {
    var p :| Joins(step, p, a, b);
    assert Joins(step, p + [c], a, c);
  }

  lemma ReachesThrough<T(!new)>(step: (T, T) -> bool, a: T, b: T, c: T)
    requires Reaches(step, a, b) && Reaches(step, b, c)
    ensures Reaches(step, a, c)
  {
    var p :| Joins(step, p, a, b);
    var q :| Joins(step, q, b, c);
    var r := p + q[1..];
    forall i | 0 <= i < |r| - 1 ensures step(r[i], r[i + 1]) {
      if i >= |p| - 1 {
        var k := i - (|p| - 1);
        assert r[i] == q[k] && r[i + 1] == q[k + 1];
      }
    }
    assert Joins(step, r, a, c);
  }

  /** A set that no step leaves holds everything reachable from inside it. */
  lemma {:induction false} ClosedSet<T(!new)>(step: (T, T) -> bool, s: set<T>, p: seq<T>)
    requires IsPath(step, p) && p[0] in s
    requires forall u, v :: u in s && step(u, v) ==> v in s
    ensures p[|p| - 1] in s
  {
    if |p| > 1 {
      assert step(p[0], p[1]);
      var rest := p[1..];
      forall i | 0 <= i < |rest| - 1 ensures step(rest[i], rest[i + 1]) {
        assert step(p[i + 1], p[i + 2]);
      }
      ClosedSet(step, s, rest);
    }
  }

  lemma ClosedReaches<T(!new)>(step: (T, T) -> bool, s: set<T>, a: T, b: T)
    requires a in s && Reaches(step, a, b)
    requires forall u, v :: u in s && step(u, v) ==> v in s
    ensures b in s
  {
    var p :| Joins(step, p, a, b);
    ClosedSet(step, s, p);
  }
}

/** The check that every room can be reached from the start room. */
module Reachability {
  import opened Paths
  import opened Sorting

  datatype RoomType = Start | Other

  datatype Room = Room(id: string, kind: RoomType)

  datatype RoomEdge = RoomEdge(fromRoom: string, toRoom: string)

  datatype RoomGraph = RoomGraph(nodes: seq<Room>, edges: seq<RoomEdge>)

  predicate Connects(e: RoomEdge, a: string, b: string) {
    (e.fromRoom == a && e.toRoom == b) || (e.fromRoom == b && e.toRoom == a)
  }

  /** Some edge joins the two rooms, in either direction. */
  predicate Linked(edges: seq<RoomEdge>, a: string, b: string) {
    exists i :: 0 <= i < |edges| && Connects(edges[i], a, b)
  }

  ghost function Links(edges: seq<RoomEdge>): (string, string) -> bool {
    (a: string, b: string) => Linked(edges, a, b)
  }

  predicate HasStart(g: RoomGraph) {
    exists i :: 0 <= i < |g.nodes| && g.nodes[i].kind == Start
  }

  /** The position of the first start room, or the number of rooms. */
  function FirstStart(nodes: seq<Room>): (k: nat)
    ensures k <= |nodes|
    ensures k < |nodes| ==> nodes[k].kind == Start
    ensures forall i :: 0 <= i < k ==> nodes[i].kind != Start
  {
    if nodes == [] || nodes[0].kind == Start then 0 else 1 + FirstStart(nodes[1..])
  }

  ghost function StartId(g: RoomGraph): string
    requires HasStart(g)
  {
    g.nodes[FirstStart(g.nodes)].id
  }

  ghost predicate FromStart(g: RoomGraph, id: string)
    requires HasStart(g)
  {
    Reaches(Links(g.edges), StartId(g), id)
  }

  predicate IsNode(g: RoomGraph, id: string) {
    exists i :: 0 <= i < |g.nodes| && g.nodes[i].id == id
  }

  type Adjacency = map<string, seq<string>>

  function Neighbours(adjacency: Adjacency, id: string): seq<string> {
    if id in adjacency then adjacency[id] else []
  }

  /** `entry(id).or_default().push(other)` */
  function Push(adjacency: Adjacency, id: string, other: string): Adjacency {
    adjacency[id := Neighbours(adjacency, id) + [other]]
  }

  ghost predicate Represents(adjacency: Adjacency, edges: seq<RoomEdge>) {
    forall a, b :: b in Neighbours(adjacency, a) <==> Linked(edges, a, b)
  }

  /** Two rooms are linked exactly if they are the two ends of an edge. */
  lemma LinkedExactly(edges: seq<RoomEdge>, a: string, b: string)
    ensures Linked(edges, a, b) <==> exists e :: e in edges && {e.fromRoom, e.toRoom} == {a, b}
  {
    if exists e :: e in edges && {e.fromRoom, e.toRoom} == {a, b} {
      var e :| e in edges && {e.fromRoom, e.toRoom} == {a, b};
      var i :| 0 <= i < |edges| && edges[i] == e;
      assert e.fromRoom in {a, b} && e.toRoom in {a, b} && a in {e.fromRoom, e.toRoom} && b in {e.fromRoom, e.toRoom};
      assert Connects(edges[i], a, b);
    }
  }

  /** Whatever is joined is joined in both directions. */
  lemma JoinedBack(edges: seq<RoomEdge>, a: string, b: string)
    requires Reaches(Links(edges), a, b)
    ensures Reaches(Links(edges), b, a)
  {
    var step := Links(edges);
    var p :| Joins(step, p, a, b);
    var q := seq(|p|, i requires 0 <= i < |p| => p[|p| - 1 - i]);
    forall i | 0 <= i < |q| - 1 ensures step(q[i], q[i + 1]) {
      var k := |p| - 2 - i;
      assert step(p[k], p[k + 1]);
    }
    assert Joins(step, q, b, a);
  }

  lemma LinkedExtended(edges: seq<RoomEdge>, e: RoomEdge)
    ensures forall a, b :: Linked(edges + [e], a, b) <==> Linked(edges, a, b) || Connects(e, a, b)
  {
    forall a, b ensures Linked(edges + [e], a, b) <==> Linked(edges, a, b) || Connects(e, a, b) {
      var all := edges + [e];
      if Linked(all, a, b) {
        var i :| 0 <= i < |all| && Connects(all[i], a, b);
        assert i < |edges| ==> edges[i] == all[i];
      }
      if Linked(edges, a, b) {
        var i :| 0 <= i < |edges| && Connects(edges[i], a, b);
        assert all[i] == edges[i];
      }
      if Connects(e, a, b) {
        assert all[|edges|] == e;
      }
    }
  }

  lemma EdgeRepresented(adjacency: Adjacency, edges: seq<RoomEdge>, e: RoomEdge)
    requires Represents(adjacency, edges)
    ensures Represents(Push(Push(adjacency, e.fromRoom, e.toRoom), e.toRoom, e.fromRoom), edges + [e])
  {
    var first := Push(adjacency, e.fromRoom, e.toRoom);
    LinkedExtended(edges, e);
    forall a, b ensures b in Neighbours(Push(first, e.toRoom, e.fromRoom), a) <==> Linked(edges + [e], a, b) {
      assert b in Neighbours(first, a) <==> b in Neighbours(adjacency, a) || (a == e.fromRoom && b == e.toRoom);
    }
  }

  method BuildAdjacency(g: RoomGraph) returns (adjacency: Adjacency)
    ensures Represents(adjacency, g.edges)
  {
    adjacency := map[];
    for i := 0 to |g.nodes|
      invariant forall a :: Neighbours(adjacency, a) == []
    {
      var id := g.nodes[i].id;
      ghost var before := adjacency;
      adjacency := adjacency[id := Neighbours(adjacency, id)];
      assert forall a :: Neighbours(adjacency, a) == Neighbours(before, a);
    }
    for i := 0 to |g.edges|
      invariant Represents(adjacency, g.edges[..i])
    {
      var e := g.edges[i];
      ghost var done := g.edges[..i];
      EdgeRepresented(adjacency, done, e);
      adjacency := Push(adjacency, e.fromRoom, e.toRoom);
      adjacency := Push(adjacency, e.toRoom, e.fromRoom);
      assert Represents(adjacency, done + [e]);
      assert g.edges[..i + 1] == done + [e];
    }
    assert g.edges[..|g.edges|] == g.edges;
  }

  /** Every id the search can meet. */
  ghost function Universe(g: RoomGraph, start: string): set<string> {
    {start} + (set i | 0 <= i < |g.edges| :: g.edges[i].fromRoom) + (set i | 0 <= i < |g.edges| :: g.edges[i].toRoom)
  }

  /** The search loop: it returns exactly the ids joined to the start by a path. */
  method Search(g: RoomGraph, start: string) returns (visited: set<string>)
    ensures forall id :: id in visited <==> Reaches(Links(g.edges), start, id)
  {
    var adjacency := BuildAdjacency(g);
    visited := {start};
    var queue := [start];
    ghost var step := Links(g.edges);
    ReachesSelf(step, start);
    while queue != []
      invariant start in visited && visited <= Universe(g, start)
      invariant forall id :: id in queue ==> id in visited
      invariant forall id :: id in visited ==> Reaches(step, start, id)
      invariant forall u, v :: u in visited && u !in queue && step(u, v) ==> v in visited
      decreases Universe(g, start) - visited, |queue|
    {
      var current := queue[0];
      var neighbours := Neighbours(adjacency, current);
      visited, queue := VisitAll(g, start, current, neighbours, visited, queue[1..]);
    }
    forall id | Reaches(step, start, id) ensures id in visited {
      ClosedReaches(step, visited, start, id);
    }
  }

  /** One turn of the search: the neighbours of the room taken from the queue. */
  method VisitAll(g: RoomGraph, ghost start: string, ghost current: string, neighbours: seq<string>,
                  visited0: set<string>, queue0: seq<string>)
    returns (visited: set<string>, queue: seq<string>)
    requires forall b :: b in neighbours <==> Linked(g.edges, current, b)
    requires visited0 <= Universe(g, start) && current in visited0
    requires forall id :: id in queue0 ==> id in visited0
    requires forall id :: id in visited0 ==> Reaches(Links(g.edges), start, id)
    requires forall u, v :: u in visited0 && u != current && u !in queue0 && Links(g.edges)(u, v) ==> v in visited0
    ensures visited0 <= visited <= Universe(g, start)
    ensures forall id :: id in queue ==> id in visited
    ensures forall id :: id in visited ==> Reaches(Links(g.edges), start, id)
    ensures forall u, v :: u in visited && u !in queue && Links(g.edges)(u, v) ==> v in visited
    ensures visited != visited0 || queue == queue0
  {
    visited, queue := visited0, queue0;
    for i := 0 to |neighbours|
      invariant visited0 <= visited <= Universe(g, start)
      invariant forall id :: id in queue0 ==> id in queue
      invariant forall id :: id in queue ==> id in visited
      invariant forall id :: id in visited ==> Reaches(Links(g.edges), start, id)
      invariant forall k :: 0 <= k < i ==> neighbours[k] in visited
      invariant forall id :: id in visited && id !in visited0 ==> id in queue
      invariant visited != visited0 || queue == queue0
    {
      var neighbour := neighbours[i];
      assert Linked(g.edges, current, neighbour);
      if neighbour !in visited {
        ReachesNext(Links(g.edges), start, current, neighbour);
        visited := visited + {neighbour};
        queue := queue + [neighbour];
      }
    }
    forall u, v | u in visited && u !in queue && Links(g.edges)(u, v) ensures v in visited {
      if u == current {
        assert v in neighbours;
      }
    }
  }

  datatype Report = Ok | NoStart | Unreachable(ids: seq<string>)

  method NodeIds(g: RoomGraph) returns (ids: set<string>)
    ensures forall id :: id in ids <==> IsNode(g, id)
  {
    ids := set i | 0 <= i < |g.nodes| :: g.nodes[i].id;
  }

  /**
   Succeeds exactly when there is a start room and every room is joined to the first one by edges;
   otherwise the report lists the rooms that are not, in order and once each.
   */
  method ValidateReachability(g: RoomGraph) returns (r: Report)
    ensures r == NoStart <==> !HasStart(g)
    ensures HasStart(g) ==> (r == Ok <==> forall id :: IsNode(g, id) ==> FromStart(g, id))
    ensures r.Unreachable? ==> HasStart(g) && r.ids != [] && Ordered(r.ids, StringLeq) && NoDuplicates(r.ids)
    ensures r.Unreachable? ==> forall id :: id in r.ids <==> IsNode(g, id) && !FromStart(g, id)
  {
    var k := FirstStart(g.nodes);
    if k == |g.nodes| {
      return NoStart;
    }
    assert HasStart(g);
    var visited := Search(g, g.nodes[k].id);
    var all := NodeIds(g);
    var rest := Elements(all - visited);
    var unreachable := Sort(rest, StringLeq);
    StringTotal();
    SortOrdered(rest, StringLeq);
    SortMembers(rest, StringLeq);
    SortKeepsDistinct(rest, StringLeq);
    if unreachable == [] {
      forall id | IsNode(g, id) ensures FromStart(g, id) {
        assert id in all && id !in unreachable;
      }
      return Ok;
    }
    assert unreachable[0] in unreachable;
    return Unreachable(unreachable);
  }
}
