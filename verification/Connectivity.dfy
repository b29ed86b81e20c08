/** The check that the doorways of a terrain are joined by walkable tiles. */
module Connectivity {
  import opened Wrappers
  import opened Geometry
  import opened Paths
  import opened Sequences

  datatype TileKind = Empty | Floor | Wall | Obstacle | Reserved | Doorway

  /** A side of a grid, 32 bits wide; the fields are public, so any side can occur. */
  type Dimension = n: nat | n < 0x1_0000_0000

  datatype Grid2D = Grid2D(width: Dimension, height: Dimension, data: seq<TileKind>)

  datatype Terrain = Terrain(roomId: string, tiles: Grid2D)

  const MAX_GRID_CELLS: nat := 1_048_576

  /** How many cells a grid with these sides has; none if it has no cell or too many. */
  function CheckedGridCells(width: Dimension, height: Dimension): Option<nat> {
    if width == 0 || height == 0 || width * height > MAX_GRID_CELLS then None else Some(width * height)
  }

  /** `Grid2D::new` */
  function NewGrid(width: Dimension, height: Dimension, tile: TileKind): (r: Option<Grid2D>)
    ensures r.Some? <==> 0 < width * height <= 1024 * 1024
    ensures r.Some? ==> Built(r.value) && r.value.width == width && r.value.height == height
    ensures r.Some? ==> forall t :: t in r.value.data ==> t == tile
  {
    match CheckedGridCells(width, height)
    case None => None
    case Some(size) => Some(Grid2D(width, height, seq(size, i => tile)))
  }

  /** `Grid2D::validate`, which guards imported grids. */
  predicate Validates(g: Grid2D) {
    CheckedGridCells(g.width, g.height) == Some(|g.data|)
  }

  /** A grid as the constructor makes it, whatever tiles are set in it later. */
  predicate Built(g: Grid2D) {
    g.width > 0 && g.height > 0 && g.width * g.height <= MAX_GRID_CELLS && |g.data| == g.width * g.height
  }

  /** The tile at a point; none outside the grid or past the end of the data. */
  function Get(g: Grid2D, x: int, y: int): Option<TileKind> {
    if x < 0 || y < 0 || x >= g.width || y >= g.height then None
    else if y * g.width + x < |g.data| then
      assert y * g.width >= 0;
      Some(g.data[y * g.width + x])
    else None
  }

  lemma {:induction false} FlattenedAt(rows: seq<seq<TileKind>>, width: nat, x: nat, y: nat)
    requires (forall i :: 0 <= i < |rows| ==> |rows[i]| == width) && x < width && y < |rows|
    ensures |Flatten(rows)| == |rows| * width
    ensures y * width + x < |rows| * width && Flatten(rows)[y * width + x] == rows[y][x]
  {
    var last := |rows| - 1;
    if last > 0 {
      FlattenedAt(rows[..last], width, x, if y < last then y else 0);
    } else {
      assert rows[..0] == [];
    }
    RowsBefore(y, last, width, x);
  }

  lemma RowsBefore(y: nat, last: nat, width: nat, x: nat)
    requires y <= last && x < width
    ensures if y < last then y * width + x < last * width else last * width <= y * width + x < (last + 1) * width
  {
    if y < last {
      assert (y + 1) * width <= last * width;
    }
  }

  /** The data are the tiles of these rows, one row after the other. */
  predicate HasRows(g: Grid2D, rows: seq<seq<TileKind>>) {
    |rows| == g.height && (forall i :: 0 <= i < |rows| ==> |rows[i]| == g.width) && g.data == Flatten(rows)
  }

  lemma RowsReadBack(g: Grid2D, rows: seq<seq<TileKind>>, x: int, y: int)
    requires HasRows(g, rows)
    ensures Get(g, x, y) == if 0 <= y < |rows| && 0 <= x < |rows[y]| then Some(rows[y][x]) else None
  {
    if 0 <= y < |rows| && 0 <= x < |rows[y]| {
      FlattenedAt(rows, g.width, x, y);
    }
  }

  predicate Walkable(t: TileKind) {
    t.Floor? || t.Doorway? || t.Reserved?
  }

  predicate WalkableAt(g: Grid2D, p: GridPoint) {
    Get(g, p.x, p.y).Some? && Walkable(Get(g, p.x, p.y).value)
  }

  predicate IsDoorway(g: Grid2D, p: GridPoint) {
    Get(g, p.x, p.y) == Some(Doorway)
  }

  predicate Adjacent(p: GridPoint, q: GridPoint) {
    || q == GridPoint(p.x + 1, p.y) || q == GridPoint(p.x - 1, p.y)
    || q == GridPoint(p.x, p.y + 1) || q == GridPoint(p.x, p.y - 1)
  }

  /** A move to a walkable tile on one of the four sides. */
  ghost function Moves(g: Grid2D): (GridPoint, GridPoint) -> bool {
    (p: GridPoint, q: GridPoint) => Adjacent(p, q) && WalkableAt(g, q)
  }

  lemma AdjacentExactly(p: GridPoint, q: GridPoint)
    ensures Adjacent(p, q) <==> UnitApart(p, q)
  {
    UnitSquares(p.x - q.x, p.y - q.y);
    assert q == GridPoint(q.x, q.y);
  }

  /** A move is one unit along one axis, to a tile inside that is neither empty, wall nor obstacle. */
  lemma MovesExactly(g: Grid2D, rows: seq<seq<TileKind>>, p: GridPoint, q: GridPoint)
    requires HasRows(g, rows)
    ensures Moves(g)(p, q)
       <==> UnitApart(p, q)
            && 0 <= q.y < |rows| && 0 <= q.x < |rows[q.y]| && rows[q.y][q.x] !in {Empty, Wall, Obstacle}
  {
    RowsReadBack(g, rows, q.x, q.y);
    AdjacentExactly(p, q);
  }

  // ---------- doorways ----------

  predicate RowMajor(p: GridPoint, q: GridPoint) {
    p.y < q.y || (p.y == q.y && p.x < q.x)
  }

  /** Where a loop from 0 to a side ends: the side is cast to a signed 32-bit number first. */
  function LoopEnd(side: Dimension): nat {
    var signed := if side < 0x8000_0000 then side else side - 0x1_0000_0000;
    if signed < 0 then 0 else signed
  }

  /** No side is changed by the cast. */
  predicate Narrow(g: Grid2D) {
    g.width < 0x8000_0000 && g.height < 0x8000_0000
  }

  lemma FactorBelow(a: nat, b: nat)
    requires b > 0
    ensures a <= a * b
  {
  }

  /** The limit on cells keeps both sides of a grid far below what the cast can change. */
  lemma BuiltIsNarrow(g: Grid2D)
    ensures Validates(g) <==> Built(g)
    ensures Built(g) ==> Narrow(g)
  {
    if Built(g) {
      FactorBelow(g.width, g.height);
      FactorBelow(g.height, g.width);
    }
  }

  /** All doorways of a narrow grid, and nothing of any other. */
  method CollectDoorways(g: Grid2D) returns (doorways: seq<GridPoint>)
    ensures forall p :: p in doorways <==> Narrow(g) && IsDoorway(g, p)
    ensures forall i, j :: 0 <= i < j < |doorways| ==> RowMajor(doorways[i], doorways[j])
  {
    doorways := [];
    for y := 0 to LoopEnd(g.height)
      invariant forall p :: p in doorways <==> Narrow(g) && IsDoorway(g, p) && p.y < y
      invariant forall i, j :: 0 <= i < j < |doorways| ==> RowMajor(doorways[i], doorways[j])
    {
      for x := 0 to LoopEnd(g.width)
        invariant forall p :: p in doorways <==> Narrow(g) && IsDoorway(g, p) && RowMajor(p, GridPoint(x, y))
        invariant forall i, j :: 0 <= i < j < |doorways| ==> RowMajor(doorways[i], doorways[j])
      {
        if Get(g, x, y) == Some(Doorway) {
          doorways := doorways + [GridPoint(x, y)];
        }
      }
    }
  }

  // ---------- the search ----------

  ghost function Universe(g: Grid2D, start: GridPoint): set<GridPoint> {
    {start} + set x, y | 0 <= x < g.width && 0 <= y < g.height :: GridPoint(x, y)
  }

  function Sides(p: GridPoint): seq<GridPoint> {
    [GridPoint(p.x + 1, p.y), GridPoint(p.x - 1, p.y), GridPoint(p.x, p.y + 1), GridPoint(p.x, p.y - 1)]
  }

  /** The tiles that a walk from `start` can reach, and no others. */
  method BfsWalkable(g: Grid2D, start: GridPoint) returns (visited: set<GridPoint>)
    ensures forall p :: p in visited <==> Reaches(Moves(g), start, p)
  {
    visited := {start};
    var queue := [start];
    ghost var step := Moves(g);
    ReachesSelf(step, start);
    while queue != []
      invariant start in visited && visited <= Universe(g, start)
      invariant forall p :: p in queue ==> p in visited
      invariant forall p :: p in visited ==> Reaches(step, start, p)
      invariant forall u, v :: u in visited && u !in queue && step(u, v) ==> v in visited
      decreases Universe(g, start) - visited, |queue|
    {
      var current := queue[0];
      visited, queue := VisitSides(g, start, current, visited, queue[1..]);
    }
    forall p | Reaches(step, start, p) ensures p in visited {
      ClosedReaches(step, visited, start, p);
    }
  }

  /** One turn of the search: the four sides of the tile taken from the queue. */
  method VisitSides(g: Grid2D, ghost start: GridPoint, current: GridPoint,
                    visited0: set<GridPoint>, queue0: seq<GridPoint>)
    returns (visited: set<GridPoint>, queue: seq<GridPoint>)
    requires visited0 <= Universe(g, start) && current in visited0
    requires forall p :: p in queue0 ==> p in visited0
    requires forall p :: p in visited0 ==> Reaches(Moves(g), start, p)
    requires forall u, v :: u in visited0 && u != current && u !in queue0 && Moves(g)(u, v) ==> v in visited0
    ensures visited0 <= visited <= Universe(g, start)
    ensures forall p :: p in queue ==> p in visited
    ensures forall p :: p in visited ==> Reaches(Moves(g), start, p)
    ensures forall u, v :: u in visited && u !in queue && Moves(g)(u, v) ==> v in visited
    ensures visited != visited0 || queue == queue0
  {
    visited, queue := visited0, queue0;
    var neighbors := Sides(current);
    for i := 0 to |neighbors|
      invariant visited0 <= visited <= Universe(g, start)
      invariant forall p :: p in queue0 ==> p in queue
      invariant forall p :: p in queue ==> p in visited
      invariant forall p :: p in visited ==> Reaches(Moves(g), start, p)
      invariant forall k :: 0 <= k < i && WalkableAt(g, neighbors[k]) ==> neighbors[k] in visited
      invariant forall p :: p in visited && p !in visited0 ==> p in queue
      invariant visited != visited0 || queue == queue0
    {
      var neighbor := neighbors[i];
      if neighbor !in visited {
        if WalkableAt(g, neighbor) {
          ReachesNext(Moves(g), start, current, neighbor);
          visited := visited + {neighbor};
          queue := queue + [neighbor];
        }
      }
    }
    forall u, v | u in visited && u !in queue && Moves(g)(u, v) ensures v in visited {
      if u == current {
        assert v == neighbors[0] || v == neighbors[1] || v == neighbors[2] || v == neighbors[3];
      }
    }
  }

  // ---------- the check ----------

  /** Any two doorways are joined by a walk. */
  ghost predicate DoorwaysConnected(g: Grid2D) {
    forall a, b :: IsDoorway(g, a) && IsDoorway(g, b) ==> Reaches(Moves(g), a, b)
  }

  /** A walk between walkable tiles can be walked back. */
  lemma {:induction false} WalkBack(g: Grid2D, p: seq<GridPoint>)
    requires IsPath(Moves(g), p) && WalkableAt(g, p[0])
    ensures Reaches(Moves(g), p[|p| - 1], p[0])
  {
    if |p| == 1 {
      ReachesSelf(Moves(g), p[0]);
    } else {
      var rest := p[1..];
      assert Moves(g)(p[0], p[1]);
      forall i | 0 <= i < |rest| - 1 ensures Moves(g)(rest[i], rest[i + 1]) {
        assert Moves(g)(p[i + 1], p[i + 2]);
      }
      WalkBack(g, rest);
      ReachesNext(Moves(g), p[|p| - 1], p[1], p[0]);
    }
  }

  /** Reaching every doorway from one of them is reaching any doorway from any other. */
  lemma OneDoorwayIsEnough(g: Grid2D, first: GridPoint)
    requires IsDoorway(g, first)
    requires forall b :: IsDoorway(g, b) ==> Reaches(Moves(g), first, b)
    ensures DoorwaysConnected(g)
  {
    forall a, b | IsDoorway(g, a) && IsDoorway(g, b) ensures Reaches(Moves(g), a, b) {
      var p :| Joins(Moves(g), p, first, a);
      WalkBack(g, p);
      ReachesThrough(Moves(g), a, first, b);
    }
  }

  /** What the check asks of any grid: only one that is not built can have a side of 2^31 or more. */
  ghost predicate Passes(g: Grid2D) {
    Narrow(g) ==> DoorwaysConnected(g)
  }

  ghost predicate AllBuilt(terrains: seq<Terrain>) {
    forall i :: 0 <= i < |terrains| ==> Built(terrains[i].tiles)
  }

  /** In every terrain any two doorways are joined. */
  ghost predicate AllDoorwaysConnected(terrains: seq<Terrain>) {
    forall i :: 0 <= i < |terrains| ==> DoorwaysConnected(terrains[i].tiles)
  }

  /** Of built terrains the check asks that all doorways are joined, and nothing else. */
  lemma BuiltPass(terrains: seq<Terrain>)
    requires AllBuilt(terrains)
    ensures (forall i :: 0 <= i < |terrains| ==> Passes(terrains[i].tiles)) <==> AllDoorwaysConnected(terrains)
  {
    forall i | 0 <= i < |terrains| ensures Passes(terrains[i].tiles) <==> DoorwaysConnected(terrains[i].tiles) {
      BuiltIsNarrow(terrains[i].tiles);
    }
  }

  /** The doorway that comes first in row order. */
  ghost predicate FirstDoorway(g: Grid2D, p: GridPoint) {
    IsDoorway(g, p) && forall q :: IsDoorway(g, q) ==> q == p || RowMajor(p, q)
  }

  /** Exactly the doorways that the first doorway does not reach. */
  ghost predicate LostDoorways(g: Grid2D, lost: seq<GridPoint>) {
    forall first, p :: FirstDoorway(g, first) ==>
      (p in lost <==> IsDoorway(g, p) && !Reaches(Moves(g), first, p))
  }

  /** None if every terrain is connected, else the room of the first that is not and its lost doorways. */
  datatype Failure = Failure(terrain: nat, roomId: string, unreachable: seq<GridPoint>)

  method ValidateTerrainConnectivity(terrains: seq<Terrain>) returns (r: Option<Failure>)
    ensures AllBuilt(terrains) ==> (r.None? <==> AllDoorwaysConnected(terrains))
    ensures r.None? <==> forall i :: 0 <= i < |terrains| ==> Passes(terrains[i].tiles)
    ensures r.Some? ==> r.value.terrain < |terrains| && r.value.roomId == terrains[r.value.terrain].roomId
    ensures r.Some? ==> forall i :: 0 <= i < r.value.terrain ==> Passes(terrains[i].tiles)
    ensures r.Some? ==> !DoorwaysConnected(terrains[r.value.terrain].tiles) && r.value.unreachable != []
    ensures r.Some? ==> LostDoorways(terrains[r.value.terrain].tiles, r.value.unreachable)
  {
    for i := 0 to |terrains|
      invariant forall k :: 0 <= k < i ==> Passes(terrains[k].tiles)
    {
      var g := terrains[i].tiles;
      var unreachable := UnreachableDoorways(g);
      if unreachable != [] {
        assert unreachable[0] in unreachable;
        return Some(Failure(i, terrains[i].roomId, unreachable));
      }
    }
    if AllBuilt(terrains) {
      BuiltPass(terrains);
    }
    return None;
  }

  /** The doorways that the first doorway does not reach. */
  method UnreachableDoorways(g: Grid2D) returns (unreachable: seq<GridPoint>)
    ensures Built(g) ==> (unreachable == [] <==> DoorwaysConnected(g))
    ensures unreachable == [] <==> Passes(g)
    ensures Narrow(g) ==> LostDoorways(g, unreachable)
  {
    BuiltIsNarrow(g);
    var doorways := CollectDoorways(g);
    if |doorways| <= 1 {
      forall a, b | Narrow(g) && IsDoorway(g, a) && IsDoorway(g, b) ensures Reaches(Moves(g), a, b) {
        assert a in doorways && b in doorways;
        ReachesSelf(Moves(g), a);
      }
      return [];
    }
    var start := doorways[0];
    assert start in doorways && Narrow(g);
    assert forall first :: FirstDoorway(g, first) ==> first == start;
    var reachable := BfsWalkable(g, start);
    unreachable := [];
    for i := 0 to |doorways|
      invariant forall p :: p in unreachable <==> p in doorways[..i] && p !in reachable
    {
      if doorways[i] !in reachable {
        unreachable := unreachable + [doorways[i]];
      }
    }
    assert doorways[..|doorways|] == doorways;
    if unreachable == [] {
      forall b | IsDoorway(g, b) ensures Reaches(Moves(g), start, b) {
        assert b in doorways[..|doorways|] && b !in unreachable;
      }
      OneDoorwayIsEnough(g, start);
    } else {
      assert unreachable[0] in unreachable;
      assert !Reaches(Moves(g), start, unreachable[0]);
    }
  }
}
