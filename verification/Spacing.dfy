/** The check of distances between spawn points, grouped by room, and of exclusion zones. */
module Spacing {
  import opened Wrappers
  import opened Sequences
  import opened Geometry
  import opened Sorting

  datatype SpawnPoint = SpawnPoint(id: string, roomId: string, pos: GridPoint)

  datatype Zone = Zone(min: GridPoint, max: GridPoint, excludeSpawns: bool, name: string)

  datatype Constraint = ExclusionZone(zone: Zone) | OtherConstraint

  const DEFAULT_MIN_SPACING := 2

  function Abs(n: int): nat {
    if n < 0 then -n else n
  }

  function Manhattan(a: GridPoint, b: GridPoint): nat {
    Abs(a.x - b.x) + Abs(a.y - b.y)
  }

  // ---------- distance ----------

  /** From one point to another, a unit at a time. */
  ghost predicate Walk(path: seq<GridPoint>, a: GridPoint, b: GridPoint) {
    && path != [] && path[0] == a && path[|path| - 1] == b
    && forall i :: 0 <= i < |path| - 1 ==> UnitApart(path[i], path[i + 1])
  }

  lemma OneNearer(a: GridPoint, p: GridPoint, q: GridPoint)
    requires UnitApart(p, q)
    ensures Manhattan(a, q) <= Manhattan(a, p) + 1
  {
    UnitSquares(p.x - q.x, p.y - q.y);
  }

  lemma {:induction false} WalkIsLong(path: seq<GridPoint>, a: GridPoint, b: GridPoint)
    requires Walk(path, a, b)
    ensures Manhattan(a, b) <= |path| - 1
  {
    if |path| > 1 {
      var last := |path| - 1;
      WalkIsLong(path[..last], a, path[last - 1]);
      OneNearer(a, path[last - 1], path[last]);
    }
  }

  function Toward(a: int, b: int): int {
    if a < b then b - 1 else if a > b then b + 1 else b
  }

  lemma {:induction false} ShortWalk(a: GridPoint, b: GridPoint) returns (path: seq<GridPoint>)
    ensures Walk(path, a, b) && |path| - 1 == Manhattan(a, b)
    decreases Manhattan(a, b)
  {
    if a == b {
      path := [a];
    } else {
      var before := if a.x != b.x then GridPoint(Toward(a.x, b.x), b.y) else GridPoint(b.x, Toward(a.y, b.y));
      var front := ShortWalk(a, before);
      UnitSquares(before.x - b.x, before.y - b.y);
      path := front + [b];
    }
  }

  /** The distance is the least number of unit steps between the points. */
  lemma DistanceExactly(a: GridPoint, b: GridPoint, n: nat)
    ensures Manhattan(a, b) <= n <==> exists path :: Walk(path, a, b) && |path| - 1 <= n
  {
    var short := ShortWalk(a, b);
    if exists path :: Walk(path, a, b) && |path| - 1 <= n {
      var path :| Walk(path, a, b) && |path| - 1 <= n;
      WalkIsLong(path, a, b);
    }
  }

  predicate InZone(p: GridPoint, z: Zone) {
    z.min.x <= p.x < z.max.x && z.min.y <= p.y < z.max.y
  }

  // ---------- what the check is for ----------

  predicate TooClose(a: SpawnPoint, b: SpawnPoint, spacing: int) {
    a.roomId == b.roomId && Manhattan(a.pos, b.pos) < spacing
  }

  /** No two points of one room are too close. */
  ghost predicate Spaced(spawns: seq<SpawnPoint>, spacing: int) {
    forall i, j :: 0 <= i < j < |spawns| ==> !TooClose(spawns[i], spawns[j], spacing)
  }

  /** With the default distance, no two points of a room may share a place or a side. */
  lemma DefaultSpacing(spawns: seq<SpawnPoint>)
    ensures Spaced(spawns, DEFAULT_MIN_SPACING)
       <==> forall i, j :: 0 <= i < j < |spawns| && spawns[i].roomId == spawns[j].roomId ==>
              spawns[i].pos != spawns[j].pos && !UnitApart(spawns[i].pos, spawns[j].pos)
  {
    forall i, j | 0 <= i < j < |spawns|
      ensures TooClose(spawns[i], spawns[j], DEFAULT_MIN_SPACING)
         <==> spawns[i].roomId == spawns[j].roomId
              && (spawns[i].pos == spawns[j].pos || UnitApart(spawns[i].pos, spawns[j].pos))
    {
      UnitSquares(spawns[i].pos.x - spawns[j].pos.x, spawns[i].pos.y - spawns[j].pos.y);
    }
  }

  /** A zone holds the points that lie less than its width and its height after its first corner. */
  lemma InZoneExactly(p: GridPoint, z: Zone)
    ensures InZone(p, z)
       <==> exists i: nat, j: nat :: z.min.x + i < z.max.x && z.min.y + j < z.max.y && p == Moved(z.min, i, j)
  {
    if InZone(p, z) {
      assert p == Moved(z.min, p.x - z.min.x, p.y - z.min.y);
    }
  }

  function Moved(p: GridPoint, i: int, j: int): GridPoint {
    GridPoint(p.x + i, p.y + j)
  }

  predicate Forbids(c: Constraint, p: GridPoint) {
    c.ExclusionZone? && c.zone.excludeSpawns && InZone(p, c.zone)
  }

  /** No point lies in a zone that excludes spawns. */
  ghost predicate Allowed(spawns: seq<SpawnPoint>, constraints: seq<Constraint>) {
    forall i, k :: 0 <= i < |spawns| && 0 <= k < |constraints| ==> !Forbids(constraints[k], spawns[i].pos)
  }

  // ---------- grouping ----------

  /** The points of one room, in their order. */
  function InRoom(spawns: seq<SpawnPoint>, room: string): (r: seq<SpawnPoint>)
    ensures forall i :: 0 <= i < |r| ==> r[i].roomId == room && r[i] in spawns
  {
    if spawns == [] then []
    else (if spawns[0].roomId == room then [spawns[0]] else []) + InRoom(spawns[1..], room)
  }

  lemma {:induction false} InRoomExtended(spawns: seq<SpawnPoint>, p: SpawnPoint, room: string)
    ensures InRoom(spawns + [p], room) == InRoom(spawns, room) + if p.roomId == room then [p] else []
  {
    if spawns == [] {
      assert spawns + [p] == [p] && [p][1..] == [];
    } else {
      assert (spawns + [p])[0] == spawns[0] && (spawns + [p])[1..] == spawns[1..] + [p];
      InRoomExtended(spawns[1..], p, room);
      var own: seq<SpawnPoint> := if spawns[0].roomId == room then [spawns[0]] else [];
      Append2(own, InRoom(spawns[1..], room), if p.roomId == room then [p] else []);
    }
  }

  type Groups = map<string, seq<SpawnPoint>>

  ghost predicate Grouped(groups: Groups, spawns: seq<SpawnPoint>) {
    && (forall room :: room in groups <==> exists i :: 0 <= i < |spawns| && spawns[i].roomId == room)
    && (forall room :: room in groups ==> groups[room] == InRoom(spawns, room))
  }

  /** `entry(room).or_default().push(point)` */
  function Push(groups: Groups, p: SpawnPoint): Groups {
    groups[p.roomId := (if p.roomId in groups then groups[p.roomId] else []) + [p]]
  }

  lemma PushKeepsGroups(groups: Groups, spawns: seq<SpawnPoint>, p: SpawnPoint)
    requires Grouped(groups, spawns)
    ensures Grouped(Push(groups, p), spawns + [p])
  {
    var all := spawns + [p];
    assert all[|spawns|] == p && forall i :: 0 <= i < |spawns| ==> all[i] == spawns[i];
    if p.roomId !in groups {
      NoneInRoom(spawns, p.roomId);
    }
    forall room | room in Push(groups, p) ensures Push(groups, p)[room] == InRoom(all, room) {
      InRoomExtended(spawns, p, room);
    }
  }

  method GroupByRoom(spawns: seq<SpawnPoint>) returns (groups: Groups)
    ensures Grouped(groups, spawns)
  {
    groups := map[];
    for i := 0 to |spawns|
      invariant Grouped(groups, spawns[..i])
    {
      PushKeepsGroups(groups, spawns[..i], spawns[i]);
      assert spawns[..i + 1] == spawns[..i] + [spawns[i]];
      groups := Push(groups, spawns[i]);
    }
    assert spawns[..|spawns|] == spawns;
  }

  lemma {:induction false} NoneInRoom(spawns: seq<SpawnPoint>, room: string)
    requires !exists i :: 0 <= i < |spawns| && spawns[i].roomId == room
    ensures InRoom(spawns, room) == []
  {
    if spawns != [] {
      assert forall i :: 0 <= i < |spawns[1..]| ==> spawns[1..][i] == spawns[i + 1];
      NoneInRoom(spawns[1..], room);
    }
  }

  // ---------- spacing ----------

  datatype SpacingViolation = SpacingViolation(a: string, b: string, room: string, actual: nat, required: int)

  function Report(p: SpawnPoint, q: SpawnPoint, room: string, spacing: int): seq<SpacingViolation> {
    var dist := Manhattan(p.pos, q.pos);
    if dist < spacing then [SpacingViolation(p.id, q.id, room, dist, spacing)] else []
  }

  /** What a point reports against each of the points that follow it. */
  function Row(p: SpawnPoint, others: seq<SpawnPoint>, room: string, spacing: int): seq<seq<SpacingViolation>> {
    seq(|others|, j requires 0 <= j < |others| => Report(p, others[j], room, spacing))
  }

  /** The points after the i-th. */
  function Later(points: seq<SpawnPoint>, i: nat): seq<SpawnPoint>
    requires i < |points|
  {
    points[i + 1..]
  }

  function Rows(points: seq<SpawnPoint>, room: string, spacing: int): seq<seq<SpacingViolation>> {
    seq(|points|, i requires 0 <= i < |points| => Flatten(Row(points[i], Later(points, i), room, spacing)))
  }

  /** The reports of the points of one room. */
  function RoomViolations(points: seq<SpawnPoint>, room: string, spacing: int): seq<SpacingViolation> {
    Flatten(Rows(points, room, spacing))
  }

  function ByRoom(spawns: seq<SpawnPoint>, rooms: seq<string>, spacing: int): seq<seq<SpacingViolation>> {
    seq(|rooms|, k requires 0 <= k < |rooms| => RoomViolations(InRoom(spawns, rooms[k]), rooms[k], spacing))
  }

  /** The reports of all rooms, room by room. */
  function Violations(spawns: seq<SpawnPoint>, rooms: seq<string>, spacing: int): seq<SpacingViolation> {
    Flatten(ByRoom(spawns, rooms, spacing))
  }

  method CheckRoom(points: seq<SpawnPoint>, room: string, spacing: int) returns (r: seq<SpacingViolation>)
    ensures r == RoomViolations(points, room, spacing)
  {
    r := [];
    ghost var rows := Rows(points, room, spacing);
    for i := 0 to |points|
      invariant r == Flatten(rows[..i])
    {
      r := CheckRow(points[i], points[i + 1..], room, spacing, r);
      assert rows[..i + 1] == rows[..i] + [rows[i]];
    }
    assert rows[..|points|] == rows;
  }

  /** The inner loop: a point against those after it. */
  method CheckRow(p: SpawnPoint, others: seq<SpawnPoint>, room: string, spacing: int, before: seq<SpacingViolation>)
    returns (r: seq<SpacingViolation>)
    ensures r == before + Flatten(Row(p, others, room, spacing))
  {
    r := before;
    ghost var row := Row(p, others, room, spacing);
    for j := 0 to |others|
      invariant r == before + Flatten(row[..j])
    {
      var dist := Manhattan(p.pos, others[j].pos);
      if dist < spacing {
        r := r + [SpacingViolation(p.id, others[j].id, room, dist, spacing)];
      }
      Append2(before, Flatten(row[..j]), row[j]);
      assert row[..j + 1] == row[..j] + [row[j]];
    }
    assert row[..|others|] == row;
  }

  // The same statements point by point, for induction over the list.

  predicate FarFromAll(p: SpawnPoint, others: seq<SpawnPoint>, spacing: int) {
    others == [] || (!TooClose(p, others[0], spacing) && FarFromAll(p, others[1..], spacing))
  }

  predicate SpacedEach(spawns: seq<SpawnPoint>, spacing: int) {
    spawns == [] || (FarFromAll(spawns[0], spawns[1..], spacing) && SpacedEach(spawns[1..], spacing))
  }

  /** Points of the given room are far from every later point. */
  predicate RoomSpacedEach(spawns: seq<SpawnPoint>, room: string, spacing: int) {
    spawns == []
    || ((spawns[0].roomId == room ==> FarFromAll(spawns[0], spawns[1..], spacing))
        && RoomSpacedEach(spawns[1..], room, spacing))
  }

  lemma {:induction false} FarFromAllMeaning(p: SpawnPoint, others: seq<SpawnPoint>, spacing: int)
    ensures FarFromAll(p, others, spacing) <==> forall j :: 0 <= j < |others| ==> !TooClose(p, others[j], spacing)
  {
    if others != [] {
      var rest := others[1..];
      FarFromAllMeaning(p, rest, spacing);
      assert forall j :: 0 <= j < |rest| ==> rest[j] == others[j + 1];
      assert forall j :: 0 < j < |others| ==> others[j] == rest[j - 1];
    }
  }

  lemma {:induction false} SpacedEachMeaning(spawns: seq<SpawnPoint>, spacing: int)
    ensures SpacedEach(spawns, spacing) <==> Spaced(spawns, spacing)
  {
    if spawns != [] {
      var rest := spawns[1..];
      SpacedEachMeaning(rest, spacing);
      FarFromAllMeaning(spawns[0], rest, spacing);
      if SpacedEach(spawns, spacing) {
        forall i, j | 0 <= i < j < |spawns| ensures !TooClose(spawns[i], spawns[j], spacing) {
          assert spawns[j] == rest[j - 1] && (i > 0 ==> spawns[i] == rest[i - 1]);
        }
      }
      if Spaced(spawns, spacing) {
        forall j | 0 <= j < |rest| ensures !TooClose(spawns[0], rest[j], spacing) {
          assert rest[j] == spawns[j + 1];
        }
        forall i, j | 0 <= i < j < |rest| ensures !TooClose(rest[i], rest[j], spacing) {
          assert rest[i] == spawns[i + 1] && rest[j] == spawns[j + 1];
        }
      }
    }
  }

  lemma {:induction false} SpacedEachIndexed(points: seq<SpawnPoint>, spacing: int)
    ensures SpacedEach(points, spacing)
       <==> forall i :: 0 <= i < |points| ==> FarFromAll(points[i], Later(points, i), spacing)
  {
    if points != [] {
      var rest := points[1..];
      SpacedEachIndexed(rest, spacing);
      assert forall i :: 0 <= i < |rest| ==> rest[i] == points[i + 1] && Later(rest, i) == Later(points, i + 1);
      assert forall i :: 0 < i < |points| ==> points[i] == rest[i - 1] && Later(points, i) == Later(rest, i - 1);
    }
  }

  lemma RowEmpty(p: SpawnPoint, others: seq<SpawnPoint>, room: string, spacing: int)
    requires p.roomId == room && forall k :: 0 <= k < |others| ==> others[k].roomId == room
    ensures Flatten(Row(p, others, room, spacing)) == [] <==> FarFromAll(p, others, spacing)
  {
    var row := Row(p, others, room, spacing);
    FlattenEmpty(row);
    FarFromAllMeaning(p, others, spacing);
    assert forall k :: 0 <= k < |others| ==> (row[k] == [] <==> !TooClose(p, others[k], spacing));
  }

  lemma LaterInRoom(points: seq<SpawnPoint>, room: string, i: nat)
    requires i < |points| && forall k :: 0 <= k < |points| ==> points[k].roomId == room
    ensures forall k :: 0 <= k < |Later(points, i)| ==> Later(points, i)[k].roomId == room
  {
  }

  /** The reports of a room are empty exactly when its points are spaced. */
  lemma RoomReports(points: seq<SpawnPoint>, room: string, spacing: int)
    requires forall i :: 0 <= i < |points| ==> points[i].roomId == room
    ensures RoomViolations(points, room, spacing) == [] <==> SpacedEach(points, spacing)
  {
    var rows := Rows(points, room, spacing);
    FlattenEmpty(rows);
    SpacedEachIndexed(points, spacing);
    forall i | 0 <= i < |points| ensures rows[i] == [] <==> FarFromAll(points[i], Later(points, i), spacing) {
      LaterInRoom(points, room, i);
      RowEmpty(points[i], Later(points, i), room, spacing);
    }
  }

  lemma {:induction false} OwnRoomSuffices(p: SpawnPoint, spawns: seq<SpawnPoint>, spacing: int)
    ensures FarFromAll(p, InRoom(spawns, p.roomId), spacing) <==> FarFromAll(p, spawns, spacing)
  {
    if spawns != [] {
      OwnRoomSuffices(p, spawns[1..], spacing);
      InRoomFront(spawns, p.roomId);
    }
  }

  lemma InRoomFront(spawns: seq<SpawnPoint>, room: string)
    requires spawns != []
    ensures var all, rest := InRoom(spawns, room), InRoom(spawns[1..], room);
      if spawns[0].roomId == room then all != [] && all[0] == spawns[0] && all[1..] == rest else all == rest
  {
  }

  /** Grouping by room loses no pair that matters. */
  lemma {:induction false} GroupingKeepsPairs(spawns: seq<SpawnPoint>, room: string, spacing: int)
    ensures SpacedEach(InRoom(spawns, room), spacing) <==> RoomSpacedEach(spawns, room, spacing)
  {
    if spawns != [] {
      GroupingKeepsPairs(spawns[1..], room, spacing);
      InRoomFront(spawns, room);
      if spawns[0].roomId == room {
        OwnRoomSuffices(spawns[0], spawns[1..], spacing);
      }
    }
  }

  lemma {:induction false} AllRoomsSpaced(spawns: seq<SpawnPoint>, rooms: seq<string>, spacing: int)
    requires forall i :: 0 <= i < |spawns| ==> spawns[i].roomId in rooms
    ensures SpacedEach(spawns, spacing) <==> forall room :: room in rooms ==> RoomSpacedEach(spawns, room, spacing)
  {
    if spawns != [] {
      var rest := spawns[1..];
      assert forall i :: 0 <= i < |rest| ==> rest[i] == spawns[i + 1];
      AllRoomsSpaced(rest, rooms, spacing);
      assert spawns[0].roomId in rooms;
    }
  }

  lemma RoomViolationsEmpty(spawns: seq<SpawnPoint>, room: string, spacing: int)
    ensures RoomViolations(InRoom(spawns, room), room, spacing) == [] <==> RoomSpacedEach(spawns, room, spacing)
  {
    var points := InRoom(spawns, room);
    RoomReports(points, room, spacing);
    GroupingKeepsPairs(spawns, room, spacing);
  }

  lemma ViolationsEmpty(spawns: seq<SpawnPoint>, rooms: seq<string>, spacing: int)
    ensures Violations(spawns, rooms, spacing) == []
       <==> forall room :: room in rooms ==> RoomSpacedEach(spawns, room, spacing)
  {
    var lists := ByRoom(spawns, rooms, spacing);
    FlattenEmpty(lists);
    forall k | 0 <= k < |rooms| ensures lists[k] == [] <==> RoomSpacedEach(spawns, rooms[k], spacing) {
      RoomViolationsEmpty(spawns, rooms[k], spacing);
    }
    assert (forall room :: room in rooms ==> RoomSpacedEach(spawns, room, spacing))
      <==> forall k :: 0 <= k < |rooms| ==> RoomSpacedEach(spawns, rooms[k], spacing);
  }

  lemma EveryRoomSpaced(spawns: seq<SpawnPoint>, rooms: seq<string>, spacing: int)
    requires forall i :: 0 <= i < |spawns| ==> spawns[i].roomId in rooms
    ensures Violations(spawns, rooms, spacing) == [] <==> Spaced(spawns, spacing)
  {
    ViolationsEmpty(spawns, rooms, spacing);
    AllRoomsSpaced(spawns, rooms, spacing);
    SpacedEachMeaning(spawns, spacing);
  }

  // ---------- exclusion zones ----------

  datatype ExclusionViolation = ExclusionViolation(id: string, room: string, pos: GridPoint, zone: string)

  predicate IsActive(constraints: seq<Constraint>, z: Zone) {
    ExclusionZone(z) in constraints && z.excludeSpawns
  }

  /** The zones that exclude spawns, in the order of the constraints. */
  function Excluding(constraints: seq<Constraint>): seq<Zone> {
    if constraints == [] then []
    else
      var last := constraints[|constraints| - 1];
      Excluding(constraints[..|constraints| - 1])
        + if last.ExclusionZone? && last.zone.excludeSpawns then [last.zone] else []
  }

  lemma {:induction false} ExcludingAreActive(constraints: seq<Constraint>)
    ensures forall z :: z in Excluding(constraints) <==> IsActive(constraints, z)
  {
    if constraints != [] {
      var front, last := constraints[..|constraints| - 1], constraints[|constraints| - 1];
      ExcludingAreActive(front);
      assert constraints == front + [last];
    }
  }

  method ActiveZones(constraints: seq<Constraint>) returns (zones: seq<Zone>)
    ensures zones == Excluding(constraints)
    ensures forall z :: z in zones <==> IsActive(constraints, z)
  {
    zones := [];
    for i := 0 to |constraints|
      invariant zones == Excluding(constraints[..i])
    {
      assert constraints[..i + 1][..i] == constraints[..i];
      if constraints[i].ExclusionZone? && constraints[i].zone.excludeSpawns {
        zones := zones + [constraints[i].zone];
      }
    }
    assert constraints[..|constraints|] == constraints;
    ExcludingAreActive(constraints);
  }

  function ZoneReport(p: SpawnPoint, z: Zone): ExclusionViolation {
    ExclusionViolation(p.id, p.roomId, p.pos, z.name)
  }

  /** What each zone says of one point. */
  function PointReports(p: SpawnPoint, zones: seq<Zone>): seq<seq<ExclusionViolation>> {
    seq(|zones|, k requires 0 <= k < |zones| => if InZone(p.pos, zones[k]) then [ZoneReport(p, zones[k])] else [])
  }

  /** What each point reports, zone by zone. */
  function ZoneReports(spawns: seq<SpawnPoint>, zones: seq<Zone>): seq<seq<ExclusionViolation>> {
    seq(|spawns|, i requires 0 <= i < |spawns| => Flatten(PointReports(spawns[i], zones)))
  }

  method CheckZones(spawns: seq<SpawnPoint>, zones: seq<Zone>) returns (r: seq<ExclusionViolation>)
    ensures r == Flatten(ZoneReports(spawns, zones))
  {
    r := [];
    ghost var reports := ZoneReports(spawns, zones);
    for i := 0 to |spawns|
      invariant r == Flatten(reports[..i])
    {
      r := CheckPoint(spawns[i], zones, r);
      assert reports[..i + 1] == reports[..i] + [reports[i]];
    }
    assert reports[..|spawns|] == reports;
  }

  /** The inner loop: one point against every zone. */
  method CheckPoint(p: SpawnPoint, zones: seq<Zone>,
                    before: seq<ExclusionViolation>) returns (r: seq<ExclusionViolation>)
    ensures r == before + Flatten(PointReports(p, zones))
  {
    r := before;
    ghost var row := PointReports(p, zones);
    for k := 0 to |zones|
      invariant r == before + Flatten(row[..k])
    {
      if InZone(p.pos, zones[k]) {
        r := r + [ZoneReport(p, zones[k])];
      }
      Append2(before, Flatten(row[..k]), row[k]);
      assert row[..k + 1] == row[..k] + [row[k]];
    }
    assert row[..|zones|] == row;
  }

  lemma PointAllowed(p: SpawnPoint, constraints: seq<Constraint>, zones: seq<Zone>)
    requires forall z :: z in zones <==> IsActive(constraints, z)
    ensures Flatten(PointReports(p, zones)) == []
       <==> forall k :: 0 <= k < |constraints| ==> !Forbids(constraints[k], p.pos)
  {
    var row := PointReports(p, zones);
    FlattenEmpty(row);
    if m :| 0 <= m < |row| && row[m] != [] {
      assert IsActive(constraints, zones[m]);
      var k :| 0 <= k < |constraints| && constraints[k] == ExclusionZone(zones[m]);
      assert Forbids(constraints[k], p.pos);
    }
    if k :| 0 <= k < |constraints| && Forbids(constraints[k], p.pos) {
      assert IsActive(constraints, constraints[k].zone);
      var m :| 0 <= m < |zones| && zones[m] == constraints[k].zone;
      assert row[m] != [];
    }
  }

  lemma NothingExcluded(spawns: seq<SpawnPoint>, constraints: seq<Constraint>, zones: seq<Zone>)
    requires forall z :: z in zones <==> IsActive(constraints, z)
    ensures Flatten(ZoneReports(spawns, zones)) == [] <==> Allowed(spawns, constraints)
  {
    FlattenEmpty(ZoneReports(spawns, zones));
    forall i | 0 <= i < |spawns|
      ensures ZoneReports(spawns, zones)[i] == []
         <==> forall k :: 0 <= k < |constraints| ==> !Forbids(constraints[k], spawns[i].pos)
    {
      PointAllowed(spawns[i], constraints, zones);
    }
  }

  // ---------- the check ----------

  function Effective(minSpacing: Option<int>): int {
    if minSpacing.Some? then minSpacing.value else DEFAULT_MIN_SPACING
  }

  /** The rooms that have points, in order. */
  ghost predicate RoomList(spawns: seq<SpawnPoint>, rooms: seq<string>) {
    && Ordered(rooms, StringLeq) && NoDuplicates(rooms)
    && forall room :: room in rooms <==> exists i :: 0 <= i < |spawns| && spawns[i].roomId == room
  }

  /**
   The pairs that are too close, room by room in the order of the rooms, and the points in excluding zones,
   point by point and zone by zone; both lists are empty exactly when all points are spaced and allowed.
   */
  method ValidateSpawnSpacing(spawns: seq<SpawnPoint>, constraints: seq<Constraint>, minSpacing: Option<int>)
    returns (tooClose: seq<SpacingViolation>, excluded: seq<ExclusionViolation>)
    ensures tooClose == [] <==> Spaced(spawns, Effective(minSpacing))
    ensures excluded == [] <==> Allowed(spawns, constraints)
    ensures excluded == Flatten(ZoneReports(spawns, Excluding(constraints)))
    ensures exists rooms :: RoomList(spawns, rooms) && tooClose == Violations(spawns, rooms, Effective(minSpacing))
  {
    var groups := GroupByRoom(spawns);
    var keys := Elements(groups.Keys);
    var rooms := Sort(keys, StringLeq);
    StringTotal();
    SortOrdered(keys, StringLeq);
    SortMembers(keys, StringLeq);
    SortKeepsDistinct(keys, StringLeq);
    assert RoomList(spawns, rooms);
    forall k | 0 <= k < |rooms| ensures rooms[k] in groups && groups[rooms[k]] == InRoom(spawns, rooms[k]) {
      assert rooms[k] in rooms;
    }
    tooClose := CheckRooms(spawns, groups, rooms, Effective(minSpacing));
    EveryRoomSpaced(spawns, rooms, Effective(minSpacing));
    var zones := ActiveZones(constraints);
    excluded := CheckZones(spawns, zones);
    NothingExcluded(spawns, constraints, zones);
  }

  method CheckRooms(ghost spawns: seq<SpawnPoint>, groups: Groups, rooms: seq<string>, spacing: int)
    returns (tooClose: seq<SpacingViolation>)
    requires forall k :: 0 <= k < |rooms| ==> rooms[k] in groups && groups[rooms[k]] == InRoom(spawns, rooms[k])
    ensures tooClose == Violations(spawns, rooms, spacing)
  {
    tooClose := [];
    ghost var lists := ByRoom(spawns, rooms, spacing);
    for i := 0 to |rooms|
      invariant tooClose == Flatten(lists[..i])
    {
      var found := CheckRoom(groups[rooms[i]], rooms[i], spacing);
      assert lists[i] == found;
      assert lists[..i + 1] == lists[..i] + [found];
      tooClose := tooClose + found;
    }
    assert lists[..|rooms|] == lists;
  }
}
