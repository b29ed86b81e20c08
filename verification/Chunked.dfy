/** Details of one chunk, or of the requested chunks, under budgets. */
module Chunked {
  import opened Wrappers
  import opened Geometry
  import Connectivity
  import Overlap
  import Spacing

  type Terrain = Connectivity.Terrain
  type SpawnPoint = Spacing.SpawnPoint
  type Constraint = Spacing.Constraint

  datatype Room = Room(id: string, bounds: Option<Overlap.Bounds>)

  datatype Anchor = Anchor(roomId: string, pos: GridPoint)

  datatype Corridor = Corridor(fromRoom: string, toRoom: string)

  datatype Chunk = Chunk(id: string, roomIds: seq<string>)

  /** The floor plan that is computed before any room is filled. */
  datatype Plan = Plan(rooms: seq<Room>, anchors: seq<Anchor>, corridors: seq<Corridor>, chunks: seq<Chunk>,
                       constraints: seq<Constraint>, spacing: nat)

  /**
   What is given: generators that draw from the stream derived under a label, so that they are functions
   of the label and of what they are shown.
   */
  datatype Generators = Generators(
    strategy: (Room, seq<Anchor>, string) -> Option<Terrain>,
    carve: (Room, seq<Anchor>, string) -> Option<Terrain>,
    repair: Terrain -> Terrain,
    items: (Room, Terrain, string) -> seq<SpawnPoint>,
    occupied: (Room, seq<SpawnPoint>) -> seq<GridPoint>,
    enemies: (Room, Terrain, seq<GridPoint>, string) -> seq<SpawnPoint>)

  /** The label of each stream of a room, up to the room's id. */
  datatype Labels = Labels(terrain: string, fallback: string, items: string, enemies: string)

  function ChunkLabels(chunkId: string): Labels {
    Labels("terrain:chunk:" + chunkId + ":", "terrain:fallback:" + chunkId + ":",
           "items:chunk:" + chunkId + ":", "enemies:chunk:" + chunkId + ":")
  }

  function FloorLabels(): Labels {
    Labels("terrain:", "terrain:fallback:", "items:", "enemies:")
  }

  // ---------- filters ----------

  function Filter<T(!new)>(s: seq<T>, keep: T -> bool): (r: seq<T>)
    ensures |r| <= |s|
    ensures forall x :: x in r <==> x in s && keep(x)
  {
    if s == [] then []
    else (if keep(s[0]) then [s[0]] else []) + Filter(s[1..], keep)
  }

  lemma {:induction false} FilterConcat<T(!new)>(a: seq<T>, b: seq<T>, keep: T -> bool)
    ensures Filter(a + b, keep) == Filter(a, keep) + Filter(b, keep)
  {
    if a == [] {
      assert a + b == b;
    } else {
      assert (a + b)[0] == a[0] && (a + b)[1..] == a[1..] + b;
      FilterConcat(a[1..], b, keep);
    }
  }

  /** Filtering twice, when the second filter keeps nothing the first drops. */
  lemma {:induction false} FilterTwice<T(!new)>(s: seq<T>, wide: T -> bool, narrow: T -> bool)
    requires forall x :: x in s && narrow(x) ==> wide(x)
    ensures Filter(Filter(s, wide), narrow) == Filter(s, narrow)
  {
    if s != [] {
      var rest := s[1..];
      FilterTwice(rest, wide, narrow);
      assert Filter(s, narrow) == (if narrow(s[0]) then [s[0]] else []) + Filter(rest, narrow);
      if wide(s[0]) {
        assert Filter(s, wide) == [s[0]] + Filter(rest, wide);
        FilterConcat([s[0]], Filter(rest, wide), narrow);
        assert [s[0]][1..] == [];
      } else {
        assert Filter(s, wide) == Filter(rest, wide);
      }
    }
  }

  function RoomsOf(rooms: seq<Room>, ids: set<string>): seq<Room> {
    Filter(rooms, (r: Room) => r.id in ids)
  }

  function AnchorsOf(anchors: seq<Anchor>, ids: set<string>): seq<Anchor> {
    Filter(anchors, (a: Anchor) => a.roomId in ids)
  }

  function CorridorsOf(corridors: seq<Corridor>, ids: set<string>): seq<Corridor> {
    Filter(corridors, (c: Corridor) => c.fromRoom in ids || c.toRoom in ids)
  }

  function IdSet(ids: seq<string>): set<string> {
    set id | id in ids
  }

  predicate Permitted(p: SpawnPoint, constraints: seq<Constraint>) {
    forall k :: 0 <= k < |constraints| ==> !Spacing.Forbids(constraints[k], p.pos)
  }

  /** The points that lie in no excluding zone. */
  function Allowed(points: seq<SpawnPoint>, constraints: seq<Constraint>): seq<SpawnPoint> {
    Filter(points, (p: SpawnPoint) => Permitted(p, constraints))
  }

  // ---------- one room ----------

  datatype Error =
    | UnknownChunk
    | StrategyFailed(room: string)
    | TimeExhausted
    | IterationsExhausted
    | Overlapping
    | Disconnected
    | BadSpacing

  datatype Result<T> = Ok(value: T) | Err(error: Error)

  datatype Detail = Detail(terrain: Terrain, items: seq<SpawnPoint>, enemies: seq<SpawnPoint>)

  /** The details of a room; none if its strategy and the default strategy both fail. */
  function RoomDetail(g: Generators, l: Labels, anchors: seq<Anchor>, constraints: seq<Constraint>,
                      room: Room): Option<Detail> {
    match g.strategy(room, anchors, l.terrain + room.id)
    case Some(carved) =>
      var t := g.repair(carved);
      var items := g.items(room, t, l.items + room.id);
      var enemies := g.enemies(room, t, g.occupied(room, items), l.enemies + room.id);
      Some(Detail(t, Allowed(items, constraints), Allowed(enemies, constraints)))
    case None =>
      match g.carve(room, anchors, l.fallback + room.id)
      case Some(carved) => Some(Detail(g.repair(carved), [], []))
      case None => None
  }

  /** The details of all rooms, in order, or the first failure. */
  function Details(g: Generators, l: Labels, anchors: seq<Anchor>, constraints: seq<Constraint>,
                   rooms: seq<Room>): (r: Result<seq<Detail>>)
    ensures r.Ok? ==> |r.value| == |rooms|
  {
    if rooms == [] then Ok([])
    else
      var front, last := rooms[..|rooms| - 1], rooms[|rooms| - 1];
      NextDetail(Details(g, l, anchors, constraints, front), RoomDetail(g, l, anchors, constraints, last), last)
  }

  function NextDetail(done: Result<seq<Detail>>, d: Option<Detail>, room: Room): Result<seq<Detail>> {
    if done.Err? then done
    else if d.None? then Err(StrategyFailed(room.id))
    else Ok(done.value + [d.value])
  }

  function Terrains(ds: seq<Detail>): (r: seq<Terrain>)
    ensures |r| == |ds|
  {
    if ds == [] then [] else Terrains(ds[..|ds| - 1]) + [ds[|ds| - 1].terrain]
  }

  function Items(ds: seq<Detail>): seq<SpawnPoint> {
    if ds == [] then [] else Items(ds[..|ds| - 1]) + ds[|ds| - 1].items
  }

  function Enemies(ds: seq<Detail>): seq<SpawnPoint> {
    if ds == [] then [] else Enemies(ds[..|ds| - 1]) + ds[|ds| - 1].enemies
  }

  // ---------- budgets ----------

  /** The budgets, and what the clock shows (as a 64-bit number of milliseconds) at each check. */
  datatype Limits = Limits(time: Option<nat>, iterations: Option<nat>, elapsed: nat -> nat)

  predicate TimeOut(l: Limits, index: nat) {
    l.time.Some? && l.elapsed(index) >= l.time.value
  }

  /** The index is compared as a 32-bit number. */
  predicate IterationsOut(l: Limits, index: nat) {
    l.iterations.Some? && index % 0x1_0000_0000 >= l.iterations.value
  }

  predicate Exceeded(l: Limits, index: nat) {
    TimeOut(l, index) || IterationsOut(l, index)
  }

  /** The first index from `from` on at which a budget is exceeded, or `n`. */
  function Reached(l: Limits, n: nat, from: nat): (k: nat)
    requires from <= n
    ensures from <= k <= n
    ensures k < n ==> Exceeded(l, k)
    ensures forall i :: from <= i < k ==> !Exceeded(l, i)
    decreases n - from
  {
    if from == n || Exceeded(l, from) then from else Reached(l, n, from + 1)
  }

  // ---------- filling one chunk ----------

  datatype ChunkDetail = ChunkDetail(chunkId: string, terrains: seq<Terrain>, items: seq<SpawnPoint>,
                                     enemies: seq<SpawnPoint>, partial: bool)

  /** Every terrain passes the check of its doorways. */
  ghost predicate AllConnected(terrains: seq<Terrain>) {
    forall i :: 0 <= i < |terrains| ==> Connectivity.Passes(terrains[i].tiles)
  }

  ghost predicate WellPlaced(points: seq<SpawnPoint>, plan: Plan) {
    Spacing.Spaced(points, plan.spacing) && Spacing.Allowed(points, plan.constraints)
  }

  /** The first error of the final checks. */
  ghost function Checked(terrains: seq<Terrain>, points: seq<SpawnPoint>, plan: Plan): Option<Error> {
    if !AllConnected(terrains) then Some(Disconnected)
    else if !WellPlaced(points, plan) then Some(BadSpacing)
    else None
  }

  /** The first chunk with this id. */
  function FindChunk(chunks: seq<Chunk>, id: string): Option<Chunk> {
    if chunks == [] then None
    else if chunks[0].id == id then Some(chunks[0])
    else FindChunk(chunks[1..], id)
  }

  /** What a run with these limits gives for the rooms of one chunk. */
  ghost function FilledRooms(g: Generators, plan: Plan, id: string, rooms: seq<Room>, anchors: seq<Anchor>,
                             limits: Limits): Result<ChunkDetail> {
    var k := Reached(limits, |rooms|, 0);
    match Details(g, ChunkLabels(id), anchors, plan.constraints, rooms[..k])
    case Err(error) => Err(error)
    case Ok(ds) => Finished(plan, id, ds, k < |rooms|)
  }

  ghost function Finished(plan: Plan, id: string, ds: seq<Detail>, partial: bool): Result<ChunkDetail> {
    match Checked(Terrains(ds), Items(ds) + Enemies(ds), plan)
    case Some(error) => Err(error)
    case None => Ok(ChunkDetail(id, Terrains(ds), Items(ds), Enemies(ds), partial))
  }

  ghost function Filled(g: Generators, plan: Plan, id: string, limits: Limits): Result<ChunkDetail> {
    match FindChunk(plan.chunks, id)
    case None => Err(UnknownChunk)
    case Some(chunk) =>
      var ids := IdSet(chunk.roomIds);
      FilledRooms(g, plan, id, RoomsOf(plan.rooms, ids), AnchorsOf(plan.anchors, ids), limits)
  }

  lemma DetailsNext(g: Generators, l: Labels, anchors: seq<Anchor>, constraints: seq<Constraint>, rooms: seq<Room>,
                    i: nat)
    requires i < |rooms|
    ensures Details(g, l, anchors, constraints, rooms[..i + 1])
         == NextDetail(Details(g, l, anchors, constraints, rooms[..i]),
                       RoomDetail(g, l, anchors, constraints, rooms[i]), rooms[i])
  {
    assert rooms[..i + 1][..i] == rooms[..i];
  }

  /** A failure is not undone by the rooms after it, and details are not changed by them. */
  lemma {:induction false} DetailsPrefix(g: Generators, l: Labels, anchors: seq<Anchor>,
                                         constraints: seq<Constraint>, rooms: seq<Room>, i: nat)
    requires i <= |rooms|
    ensures var before := Details(g, l, anchors, constraints, rooms[..i]);
      var all := Details(g, l, anchors, constraints, rooms);
      && (before.Err? ==> all == before)
      && (all.Ok? ==> before == Ok(all.value[..i]))
  {
    if i < |rooms| {
      var front := rooms[..|rooms| - 1];
      assert front[..i] == rooms[..i];
      DetailsPrefix(g, l, anchors, constraints, front, i);
      var all := Details(g, l, anchors, constraints, rooms);
      if all.Ok? {
        assert all.value[..i] == Details(g, l, anchors, constraints, front).value[..i];
      }
    } else {
      var all := Details(g, l, anchors, constraints, rooms);
      assert rooms[..i] == rooms && (all.Ok? ==> all.value[..i] == all.value);
    }
  }

  lemma Extended(ds: seq<Detail>, d: Detail)
    ensures Terrains(ds + [d]) == Terrains(ds) + [d.terrain]
    ensures Items(ds + [d]) == Items(ds) + d.items && Enemies(ds + [d]) == Enemies(ds) + d.enemies
  {
    assert (ds + [d])[..|ds|] == ds;
  }

  /** The final checks, in the order they are made. */
  method RunChecks(terrains: seq<Terrain>, points: seq<SpawnPoint>, plan: Plan) returns (error: Option<Error>)
    ensures error == Checked(terrains, points, plan)
  {
    var failure := Connectivity.ValidateTerrainConnectivity(terrains);
    if failure.Some? {
      return Some(Disconnected);
    }
    var tooClose, excluded := Spacing.ValidateSpawnSpacing(points, plan.constraints, Some(plan.spacing));
    assert Spacing.Effective(Some(plan.spacing)) == plan.spacing;
    return if tooClose == [] && excluded == [] then None else Some(BadSpacing);
  }

  method FillChunkDetails(g: Generators, plan: Plan, chunkId: string, limits: Limits) returns (r: Result<ChunkDetail>)
    ensures r == Filled(g, plan, chunkId, limits)
  {
    var chunk := FindChunk(plan.chunks, chunkId);
    if chunk.None? {
      return Err(UnknownChunk);
    }
    var ids := IdSet(chunk.value.roomIds);
    var rooms, anchors := RoomsOf(plan.rooms, ids), AnchorsOf(plan.anchors, ids);
    r := FillRooms(g, plan, chunkId, rooms, anchors, limits);
  }

  method FillRooms(g: Generators, plan: Plan, chunkId: string, rooms: seq<Room>, anchors: seq<Anchor>, limits: Limits)
    returns (r: Result<ChunkDetail>)
    ensures r == FilledRooms(g, plan, chunkId, rooms, anchors, limits)
  {
    var terrains, items, enemies, partial := [], [], [], false;
    ghost var ds: seq<Detail> := [];
    var index := 0;
    while index < |rooms|
      invariant 0 <= index <= |rooms| && !partial
      invariant Reached(limits, |rooms|, 0) == Reached(limits, |rooms|, index)
      invariant Details(g, ChunkLabels(chunkId), anchors, plan.constraints, rooms[..index]) == Ok(ds)
      invariant terrains == Terrains(ds) && items == Items(ds) && enemies == Enemies(ds)
    {
      if TimeOut(limits, index) {
        partial := true;
        break;
      }
      if IterationsOut(limits, index) {
        partial := true;
        break;
      }
      DetailsNext(g, ChunkLabels(chunkId), anchors, plan.constraints, rooms, index);
      match RoomDetail(g, ChunkLabels(chunkId), anchors, plan.constraints, rooms[index]) {
        case None =>
          StoppedByFailure(g, ChunkLabels(chunkId), anchors, plan.constraints, rooms, index + 1,
            Reached(limits, |rooms|, 0));
          return Err(StrategyFailed(rooms[index].id));
        case Some(d) =>
          Extended(ds, d);
          terrains, items, enemies := terrains + [d.terrain], items + d.items, enemies + d.enemies;
          ds := ds + [d];
      }
      index := index + 1;
    }
    var error := RunChecks(terrains, items + enemies, plan);
    return if error.Some? then Err(error.value) else Ok(ChunkDetail(chunkId, terrains, items, enemies, partial));
  }

  lemma StoppedByFailure(g: Generators, l: Labels, anchors: seq<Anchor>, constraints: seq<Constraint>,
                         rooms: seq<Room>, i: nat, k: nat)
    requires i <= k <= |rooms| && Details(g, l, anchors, constraints, rooms[..i]).Err?
    ensures Details(g, l, anchors, constraints, rooms[..k]) == Details(g, l, anchors, constraints, rooms[..i])
  {
    assert rooms[..k][..i] == rooms[..i];
    DetailsPrefix(g, l, anchors, constraints, rooms[..k], i);
  }

  // ---------- what budgets can change ----------

  function NoLimits(): Limits {
    Limits(None, None, (index: nat) => 0)
  }

  lemma {:induction false} PartsOfPrefix(ds: seq<Detail>, k: nat)
    requires k <= |ds|
    ensures Terrains(ds[..k]) <= Terrains(ds) && Items(ds[..k]) <= Items(ds) && Enemies(ds[..k]) <= Enemies(ds)
  {
    if k == |ds| {
      assert ds[..k] == ds;
    } else {
      var front := ds[..|ds| - 1];
      PartsOfPrefix(front, k);
      assert front[..k] == ds[..k];
    }
  }

  // ---------- parts of lists ----------

  /** Where each element of `a` stands in `b`, from left to right. */
  ghost predicate Embeds<T>(f: seq<nat>, a: seq<T>, b: seq<T>) {
    && |f| == |a|
    && (forall i :: 0 <= i < |a| ==> f[i] < |b| && a[i] == b[f[i]])
    && (forall i, j :: 0 <= i < j < |a| ==> f[i] < f[j])
  }

  /** `a` is `b` with some elements left out. */
  ghost predicate PartOf<T>(a: seq<T>, b: seq<T>) {
    exists f :: Embeds(f, a, b)
  }

  lemma PrefixIsPart<T>(a: seq<T>, b: seq<T>)
    requires a <= b
    ensures PartOf(a, b)
  {
    var f: seq<nat> := seq(|a|, i => i);
    assert Embeds(f, a, b);
  }

  lemma PartsConcat<T>(a: seq<T>, b: seq<T>, c: seq<T>, d: seq<T>)
    requires PartOf(a, b) && PartOf(c, d)
    ensures PartOf(a + c, b + d)
  {
    var f :| Embeds(f, a, b);
    var h :| Embeds(h, c, d);
    var shifted: seq<nat> := seq(|c|, i requires 0 <= i < |h| => |b| + h[i]);
    var all := f + shifted;
    forall i | 0 <= i < |a + c| ensures all[i] < |b + d| && (a + c)[i] == (b + d)[all[i]] {
      if i >= |a| {
        assert all[i] == |b| + h[i - |a|];
      }
    }
    forall i, j | 0 <= i < j < |a + c| ensures all[i] < all[j] {
      if i < |a| <= j {
        assert all[i] < |b| <= all[j];
      } else if |a| <= i {
        assert h[i - |a|] < h[j - |a|];
      }
    }
    assert Embeds(all, a + c, b + d);
  }

  lemma ConnectedParts(some: seq<Terrain>, all: seq<Terrain>)
    requires PartOf(some, all) && AllConnected(all)
    ensures AllConnected(some)
  {
    var f :| Embeds(f, some, all);
  }

  lemma PlacedParts(some: seq<SpawnPoint>, all: seq<SpawnPoint>, plan: Plan)
    requires PartOf(some, all) && WellPlaced(all, plan)
    ensures WellPlaced(some, plan)
  {
    var f :| Embeds(f, some, all);
    forall i, j | 0 <= i < j < |some| ensures !Spacing.TooClose(some[i], some[j], plan.spacing) {
      assert f[i] < f[j];
    }
    forall i, k | 0 <= i < |some| && 0 <= k < |plan.constraints|
      ensures !Spacing.Forbids(plan.constraints[k], some[i].pos)
    {
      assert some[i] == all[f[i]];
    }
  }

  /** The final checks hold of parts of what they hold of. */
  lemma ChecksOfParts(some: seq<Detail>, all: seq<Detail>, plan: Plan)
    requires PartOf(Terrains(some), Terrains(all))
    requires PartOf(Items(some), Items(all)) && PartOf(Enemies(some), Enemies(all))
    requires Checked(Terrains(all), Items(all) + Enemies(all), plan) == None
    ensures Checked(Terrains(some), Items(some) + Enemies(some), plan) == None
  {
    ConnectedParts(Terrains(some), Terrains(all));
    PartsConcat(Items(some), Items(all), Enemies(some), Enemies(all));
    PlacedParts(Items(some) + Enemies(some), Items(all) + Enemies(all), plan);
  }

  // ---------- doorways of generated terrains ----------

  /** Generators make grids with the constructor and set tiles in them. */
  ghost predicate BuildsGrids(g: Generators) {
    && (forall room, anchors, stream :: BuiltIfAny(g.strategy(room, anchors, stream)))
    && (forall room, anchors, stream :: BuiltIfAny(g.carve(room, anchors, stream)))
    && (forall t: Terrain :: Connectivity.Built(t.tiles) ==> Connectivity.Built(g.repair(t).tiles))
  }

  predicate BuiltIfAny(t: Option<Terrain>) {
    t.Some? ==> Connectivity.Built(t.value.tiles)
  }

  lemma RoomIsBuilt(g: Generators, l: Labels, anchors: seq<Anchor>, constraints: seq<Constraint>, room: Room)
    requires BuildsGrids(g) && RoomDetail(g, l, anchors, constraints, room).Some?
    ensures Connectivity.Built(RoomDetail(g, l, anchors, constraints, room).value.terrain.tiles)
  {
    assert BuiltIfAny(g.strategy(room, anchors, l.terrain + room.id));
    assert BuiltIfAny(g.carve(room, anchors, l.fallback + room.id));
  }

  lemma {:induction false} DetailsAreBuilt(g: Generators, l: Labels, anchors: seq<Anchor>,
                                           constraints: seq<Constraint>, rooms: seq<Room>)
    requires BuildsGrids(g) && Details(g, l, anchors, constraints, rooms).Ok?
    ensures Connectivity.AllBuilt(Terrains(Details(g, l, anchors, constraints, rooms).value))
  {
    if rooms != [] {
      var front, last := rooms[..|rooms| - 1], rooms[|rooms| - 1];
      DetailsAreBuilt(g, l, anchors, constraints, front);
      RoomIsBuilt(g, l, anchors, constraints, last);
      Extended(Details(g, l, anchors, constraints, front).value, RoomDetail(g, l, anchors, constraints, last).value);
    }
  }

  lemma {:induction false} LimitedAreBuilt(g: Generators, anchors: seq<Anchor>, constraints: seq<Constraint>,
                                           rooms: seq<Room>, limits: Limits)
    requires BuildsGrids(g) && Limited(g, anchors, constraints, rooms, limits).Ok?
    ensures Connectivity.AllBuilt(Terrains(Limited(g, anchors, constraints, rooms, limits).value))
  {
    if rooms != [] {
      var front, last := rooms[..|rooms| - 1], rooms[|rooms| - 1];
      LimitedAreBuilt(g, anchors, constraints, front, limits);
      RoomIsBuilt(g, FloorLabels(), anchors, constraints, last);
      Extended(Limited(g, anchors, constraints, front, limits).value,
        RoomDetail(g, FloorLabels(), anchors, constraints, last).value);
    }
  }

  /** Of built terrains the check of a chunk asks exactly that all doorways are joined. */
  lemma BuiltConnected(terrains: seq<Terrain>)
    requires Connectivity.AllBuilt(terrains)
    ensures AllConnected(terrains) <==> Connectivity.AllDoorwaysConnected(terrains)
  {
    Connectivity.BuiltPass(terrains);
  }

  /** A chunk fails for its doorways exactly when some are not joined, and in a filled one all are. */
  lemma FilledIsConnected(g: Generators, plan: Plan, id: string, limits: Limits)
    requires BuildsGrids(g) && FindChunk(plan.chunks, id).Some?
    ensures Filled(g, plan, id, limits).Ok? ==>
      Connectivity.AllDoorwaysConnected(Filled(g, plan, id, limits).value.terrains)
    ensures var ids := IdSet(FindChunk(plan.chunks, id).value.roomIds);
      var rooms := RoomsOf(plan.rooms, ids);
      var ds := Details(g, ChunkLabels(id), AnchorsOf(plan.anchors, ids), plan.constraints,
                        rooms[..Reached(limits, |rooms|, 0)]);
      var disconnected := Filled(g, plan, id, limits) == Err(Disconnected);
      ds.Ok? ==> disconnected == !Connectivity.AllDoorwaysConnected(Terrains(ds.value))
  {
    var ids := IdSet(FindChunk(plan.chunks, id).value.roomIds);
    var rooms := RoomsOf(plan.rooms, ids);
    var some := rooms[..Reached(limits, |rooms|, 0)];
    var ds := Details(g, ChunkLabels(id), AnchorsOf(plan.anchors, ids), plan.constraints, some);
    if ds.Ok? {
      DetailsAreBuilt(g, ChunkLabels(id), AnchorsOf(plan.anchors, ids), plan.constraints, some);
      BuiltConnected(Terrains(ds.value));
    }
  }

  /** The same of a result for requested chunks. */
  lemma GeneratedIsConnected(g: Generators, plan: Plan, requested: seq<string>, limits: Limits)
    requires BuildsGrids(g) && GeneratedFor(g, plan, TargetIds(plan.chunks, requested), limits).Ok?
    ensures var r := GeneratedFor(g, plan, TargetIds(plan.chunks, requested), limits).value;
      Connectivity.AllDoorwaysConnected(r.terrains)
  {
    var ids := TargetIds(plan.chunks, requested);
    LimitedAreBuilt(g, AnchorsOf(plan.anchors, ids), plan.constraints, RoomsOf(plan.rooms, ids), limits);
    BuiltConnected(GeneratedFor(g, plan, ids, limits).value.terrains);
  }

  // ---------- budgets keep prefixes ----------

  /**
   If the unbudgeted run succeeds, then every run under budgets does too: its lists are prefixes of the
   unbudgeted ones, and it is partial exactly when some room of the chunk was skipped.
   */
  lemma BudgetsKeepPrefixes(g: Generators, plan: Plan, id: string, limits: Limits)
    requires Filled(g, plan, id, NoLimits()).Ok?
    ensures Filled(g, plan, id, limits).Ok?
    ensures var all, some := Filled(g, plan, id, NoLimits()).value, Filled(g, plan, id, limits).value;
      && some.terrains <= all.terrains && some.items <= all.items && some.enemies <= all.enemies
      && !all.partial && (some.partial <==> |some.terrains| < |all.terrains|)
  {
    var ids := IdSet(FindChunk(plan.chunks, id).value.roomIds);
    var rooms, anchors := RoomsOf(plan.rooms, ids), AnchorsOf(plan.anchors, ids);
    var k := Reached(limits, |rooms|, 0);
    assert Reached(NoLimits(), |rooms|, 0) == |rooms| && rooms[..|rooms|] == rooms;
    DetailsPrefix(g, ChunkLabels(id), anchors, plan.constraints, rooms, k);
    var ds := Details(g, ChunkLabels(id), anchors, plan.constraints, rooms).value;
    PartsOfPrefix(ds, k);
    PrefixIsPart(Terrains(ds[..k]), Terrains(ds));
    PrefixIsPart(Items(ds[..k]), Items(ds));
    PrefixIsPart(Enemies(ds[..k]), Enemies(ds));
    ChecksOfParts(ds[..k], ds, plan);
  }

  /** Without a time budget, an iteration budget of n fills exactly the first n rooms. */
  lemma IterationBudgetIsExact(g: Generators, plan: Plan, id: string, n: nat, elapsed: nat -> nat)
    requires n < 0x1_0000_0000 && Filled(g, plan, id, Limits(None, Some(n), elapsed)).Ok?
    ensures var rooms := RoomsOf(plan.rooms, IdSet(FindChunk(plan.chunks, id).value.roomIds));
      |Filled(g, plan, id, Limits(None, Some(n), elapsed)).value.terrains| == if n < |rooms| then n else |rooms|
  {
    var limits := Limits(None, Some(n), elapsed);
    var rooms := RoomsOf(plan.rooms, IdSet(FindChunk(plan.chunks, id).value.roomIds));
    var k := Reached(limits, |rooms|, 0);
    assert Exceeded(limits, n);
    if k < n {
      assert k % 0x1_0000_0000 == k;
    }
    assert k == if n < |rooms| then n else |rooms|;
  }

  // ---------- the requested chunks ----------

  datatype Generated = Generated(rooms: seq<Room>, anchors: seq<Anchor>, corridors: seq<Corridor>,
                                 terrains: seq<Terrain>, items: seq<SpawnPoint>, enemies: seq<SpawnPoint>)

  /** An empty request stands for all chunks. */
  predicate Requested(chunk: Chunk, requested: seq<string>) {
    requested == [] || chunk.id in requested
  }

  function TargetIds(chunks: seq<Chunk>, requested: seq<string>): set<string> {
    set c, id | c in chunks && Requested(c, requested) && id in c.roomIds :: id
  }

  /** The details of the rooms in order, until a budget is exceeded or a room fails. */
  function Limited(g: Generators, anchors: seq<Anchor>, constraints: seq<Constraint>, rooms: seq<Room>,
                   limits: Limits): (r: Result<seq<Detail>>)
    ensures r.Ok? ==> |r.value| == |rooms|
  {
    if rooms == [] then Ok([])
    else
      var front, last := rooms[..|rooms| - 1], rooms[|rooms| - 1];
      LimitedNext(Limited(g, anchors, constraints, front, limits), |front|, limits,
                  RoomDetail(g, FloorLabels(), anchors, constraints, last), last)
  }

  function LimitedNext(done: Result<seq<Detail>>, index: nat, limits: Limits, d: Option<Detail>,
                       room: Room): Result<seq<Detail>> {
    if done.Err? then done
    else if TimeOut(limits, index) then Err(TimeExhausted)
    else if IterationsOut(limits, index) then Err(IterationsExhausted)
    else NextDetail(done, d, room)
  }

  ghost predicate NoOverlap(rooms: seq<Room>) {
    forall i, j :: 0 <= i < j < |rooms| && rooms[i].bounds.Some? && rooms[j].bounds.Some? ==>
      !Overlap.Intersects(rooms[i].bounds.value, rooms[j].bounds.value)
  }

  ghost function Assembled(plan: Plan, ids: set<string>, ds: seq<Detail>): Result<Generated> {
    var rooms := RoomsOf(plan.rooms, ids);
    if !NoOverlap(rooms) then Err(Overlapping)
    else match Checked(Terrains(ds), Items(ds) + Enemies(ds), plan)
      case Some(error) => Err(error)
      case None => Ok(Generated(rooms, AnchorsOf(plan.anchors, ids), CorridorsOf(plan.corridors, ids),
                                Terrains(ds), Items(ds), Enemies(ds)))
  }

  /** The outcome for the rooms with these ids. */
  ghost function GeneratedFor(g: Generators, plan: Plan, ids: set<string>, limits: Limits): Result<Generated> {
    match Limited(g, AnchorsOf(plan.anchors, ids), plan.constraints, RoomsOf(plan.rooms, ids), limits)
    case Err(error) => Err(error)
    case Ok(ds) => Assembled(plan, ids, ds)
  }

  lemma LimitedStep(g: Generators, anchors: seq<Anchor>, constraints: seq<Constraint>, rooms: seq<Room>,
                    limits: Limits, i: nat)
    requires i < |rooms|
    ensures Limited(g, anchors, constraints, rooms[..i + 1], limits)
         == LimitedNext(Limited(g, anchors, constraints, rooms[..i], limits), i, limits,
                        RoomDetail(g, FloorLabels(), anchors, constraints, rooms[i]), rooms[i])
  {
    assert rooms[..i + 1][..i] == rooms[..i];
  }

  lemma {:induction false} LimitedFails(g: Generators, anchors: seq<Anchor>, constraints: seq<Constraint>,
                                        rooms: seq<Room>, limits: Limits, i: nat)
    requires i <= |rooms| && Limited(g, anchors, constraints, rooms[..i], limits).Err?
    ensures Limited(g, anchors, constraints, rooms, limits) == Limited(g, anchors, constraints, rooms[..i], limits)
  {
    if i < |rooms| {
      var front := rooms[..|rooms| - 1];
      assert front[..i] == rooms[..i];
      LimitedFails(g, anchors, constraints, front, limits, i);
    } else {
      assert rooms[..i] == rooms;
    }
  }

  function BoundsOf(rooms: seq<Room>): Overlap.Rooms {
    seq(|rooms|, i requires 0 <= i < |rooms| => rooms[i].bounds)
  }

  lemma NoConflictIsNoOverlap(rooms: seq<Room>)
    ensures Overlap.AllConflicts(BoundsOf(rooms), 0) == [] <==> NoOverlap(rooms)
  {
    Overlap.NoConflicts(BoundsOf(rooms));
    if NoOverlap(rooms) {
      forall i, j ensures !Overlap.Conflict(BoundsOf(rooms), i, j) {
      }
    }
    if forall i, j :: !Overlap.Conflict(BoundsOf(rooms), i, j) {
      forall i, j | 0 <= i < j < |rooms| && rooms[i].bounds.Some? && rooms[j].bounds.Some?
        ensures !Overlap.Intersects(rooms[i].bounds.value, rooms[j].bounds.value)
      {
        assert !Overlap.Conflict(BoundsOf(rooms), i, j);
      }
    }
  }

  /** Fails closed: what it returns is never truncated. */
  method GenerateChunk(g: Generators, plan: Plan, requested: seq<string>, limits: Limits) returns (r: Result<Generated>)
    ensures r == GeneratedFor(g, plan, TargetIds(plan.chunks, requested), limits)
  {
    var ids := TargetIds(plan.chunks, requested);
    var rooms, anchors := RoomsOf(plan.rooms, ids), AnchorsOf(plan.anchors, ids);
    var corridors := CorridorsOf(plan.corridors, ids);
    var details := GenerateRooms(g, plan, rooms, anchors, limits);
    if details.Err? {
      return Err(details.error);
    }
    var (terrains, items, enemies) := details.value;
    var conflicts := Overlap.ValidateNoOverlap(BoundsOf(rooms));
    NoConflictIsNoOverlap(rooms);
    if conflicts != [] {
      return Err(Overlapping);
    }
    var error := RunChecks(terrains, items + enemies, plan);
    return if error.Some? then Err(error.value)
           else Ok(Generated(rooms, anchors, corridors, terrains, items, enemies));
  }

  type Lists = (seq<Terrain>, seq<SpawnPoint>, seq<SpawnPoint>)

  function ListsOf(ds: seq<Detail>): Lists {
    (Terrains(ds), Items(ds), Enemies(ds))
  }

  function MapOk<A, B>(r: Result<A>, f: A -> B): Result<B> {
    match r case Ok(v) => Ok(f(v)) case Err(e) => Err(e)
  }

  method GenerateRooms(g: Generators, plan: Plan, rooms: seq<Room>, anchors: seq<Anchor>,
                       limits: Limits) returns (r: Result<Lists>)
    ensures r == MapOk(Limited(g, anchors, plan.constraints, rooms, limits), ListsOf)
  {
    var terrains, items, enemies := [], [], [];
    ghost var ds: seq<Detail> := [];
    for index := 0 to |rooms|
      invariant Limited(g, anchors, plan.constraints, rooms[..index], limits) == Ok(ds)
      invariant terrains == Terrains(ds) && items == Items(ds) && enemies == Enemies(ds)
    {
      LimitedStep(g, anchors, plan.constraints, rooms, limits, index);
      if TimeOut(limits, index) {
        LimitedFails(g, anchors, plan.constraints, rooms, limits, index + 1);
        return Err(TimeExhausted);
      }
      if IterationsOut(limits, index) {
        LimitedFails(g, anchors, plan.constraints, rooms, limits, index + 1);
        return Err(IterationsExhausted);
      }
      match RoomDetail(g, FloorLabels(), anchors, plan.constraints, rooms[index]) {
        case None =>
          LimitedFails(g, anchors, plan.constraints, rooms, limits, index + 1);
          return Err(StrategyFailed(rooms[index].id));
        case Some(d) =>
          Extended(ds, d);
          terrains, items, enemies := terrains + [d.terrain], items + d.items, enemies + d.enemies;
          ds := ds + [d];
      }
    }
    assert rooms[..|rooms|] == rooms;
    return Ok((terrains, items, enemies));
  }

  // ---------- what the request can change ----------

  predicate SameHere(anchors: seq<Anchor>, others: seq<Anchor>, id: string) {
    AnchorsOf(anchors, {id}) == AnchorsOf(others, {id})
  }

  /** A generator that reads only the anchors of its own room. */
  ghost predicate OwnAnchors(f: (Room, seq<Anchor>, string) -> Option<Terrain>) {
    forall room: Room, anchors, others, stream ::
      SameHere(anchors, others, room.id) ==> f(room, anchors, stream) == f(room, others, stream)
  }

  ghost predicate Local(g: Generators) {
    OwnAnchors(g.strategy) && OwnAnchors(g.carve)
  }

  /** The details of the rooms with these ids. */
  function Kept(rooms: seq<Room>, ds: seq<Detail>, ids: set<string>): seq<Detail>
    requires |rooms| == |ds|
  {
    if rooms == [] then []
    else
      var last := |rooms| - 1;
      Kept(rooms[..last], ds[..last], ids) + if rooms[last].id in ids then [ds[last]] else []
  }

  lemma SameAnchors(anchors: seq<Anchor>, ids: set<string>, room: Room)
    requires room.id in ids
    ensures AnchorsOf(AnchorsOf(anchors, ids), {room.id}) == AnchorsOf(anchors, {room.id})
  {
    var own := {room.id};
    FilterTwice(anchors, (a: Anchor) => a.roomId in ids, (a: Anchor) => a.roomId in own);
  }

  /** A room is filled alike whichever rooms are filled with it. */
  lemma RoomAlone(g: Generators, plan: Plan, ids: set<string>, more: set<string>, room: Room)
    requires Local(g) && room.id in ids && room.id in more
    ensures RoomDetail(g, FloorLabels(), AnchorsOf(plan.anchors, ids), plan.constraints, room)
         == RoomDetail(g, FloorLabels(), AnchorsOf(plan.anchors, more), plan.constraints, room)
  {
    SameAnchors(plan.anchors, ids, room);
    SameAnchors(plan.anchors, more, room);
    assert SameHere(AnchorsOf(plan.anchors, ids), AnchorsOf(plan.anchors, more), room.id);
  }

  lemma {:induction false} KeptParts(rooms: seq<Room>, ds: seq<Detail>, ids: set<string>)
    requires |rooms| == |ds|
    ensures var kept := Kept(rooms, ds, ids);
      PartOf(Terrains(kept), Terrains(ds)) && PartOf(Items(kept), Items(ds)) && PartOf(Enemies(kept), Enemies(ds))
  {
    if rooms == [] {
      PrefixIsPart(Terrains([]), Terrains(ds));
      PrefixIsPart(Items([]), Items(ds));
      PrefixIsPart(Enemies([]), Enemies(ds));
    } else {
      var n := |rooms| - 1;
      var front := Kept(rooms[..n], ds[..n], ids);
      KeptParts(rooms[..n], ds[..n], ids);
      KeptOneMore(front, ds[..n], ds[n], rooms[n].id in ids);
      assert ds == ds[..n] + [ds[n]];
    }
  }

  lemma KeptOneMore(kept: seq<Detail>, all: seq<Detail>, d: Detail, keep: bool)
    requires PartOf(Terrains(kept), Terrains(all))
    requires PartOf(Items(kept), Items(all)) && PartOf(Enemies(kept), Enemies(all))
    ensures var more := kept + if keep then [d] else [];
      && PartOf(Terrains(more), Terrains(all + [d])) && PartOf(Items(more), Items(all + [d]))
      && PartOf(Enemies(more), Enemies(all + [d]))
  {
    Extended(all, d);
    if keep {
      Extended(kept, d);
      OneMore(Terrains(kept), Terrains(all), [d.terrain], [d.terrain]);
      OneMore(Items(kept), Items(all), d.items, d.items);
      OneMore(Enemies(kept), Enemies(all), d.enemies, d.enemies);
    } else {
      assert kept + [] == kept;
      OneMore(Terrains(kept), Terrains(all), [], [d.terrain]);
      OneMore(Items(kept), Items(all), [], d.items);
      OneMore(Enemies(kept), Enemies(all), [], d.enemies);
    }
  }

  lemma OneMore<T>(a: seq<T>, b: seq<T>, c: seq<T>, d: seq<T>)
    requires PartOf(a, b) && c <= d
    ensures PartOf(a + c, b + d) && (c == [] ==> PartOf(a, b + d))
  {
    PrefixIsPart(c, d);
    PartsConcat(a, b, c, d);
    assert a + [] == a;
  }

  lemma {:induction false} FilterIsPart<T(!new)>(s: seq<T>, keep: T -> bool)
    ensures PartOf(Filter(s, keep), s)
  {
    if s == [] {
      PrefixIsPart<T>([], s);
    } else {
      FilterIsPart(s[1..], keep);
      var first := if keep(s[0]) then [s[0]] else [];
      PrefixIsPart(first, [s[0]]);
      PartsConcat(first, [s[0]], Filter(s[1..], keep), s[1..]);
      assert s == [s[0]] + s[1..];
    }
  }

  lemma OverlapOfParts(some: seq<Room>, all: seq<Room>)
    requires PartOf(some, all) && NoOverlap(all)
    ensures NoOverlap(some)
  {
    var f :| Embeds(f, some, all);
    forall i, j | 0 <= i < j < |some| && some[i].bounds.Some? && some[j].bounds.Some?
      ensures !Overlap.Intersects(some[i].bounds.value, some[j].bounds.value)
    {
      assert f[i] < f[j] && some[i] == all[f[i]] && some[j] == all[f[j]];
    }
  }

  /** In a run that ends well no index met the iteration budget. */
  lemma {:induction false} NoIndexStopped(g: Generators, anchors: seq<Anchor>, constraints: seq<Constraint>,
                                          rooms: seq<Room>, limits: Limits, i: nat)
    requires i < |rooms| && Limited(g, anchors, constraints, rooms, limits).Ok?
    ensures !IterationsOut(limits, i)
  {
    if i < |rooms| - 1 {
      NoIndexStopped(g, anchors, constraints, rooms[..|rooms| - 1], limits, i);
    }
  }

  /** What is returned covers every room asked for, and there are no more of them than the iteration budget. */
  lemma NeverTruncated(g: Generators, plan: Plan, ids: set<string>, limits: Limits)
    requires GeneratedFor(g, plan, ids, limits).Ok?
    requires limits.iterations.Some? ==> limits.iterations.value < 0x1_0000_0000
    ensures var r := GeneratedFor(g, plan, ids, limits).value;
      && r.rooms == RoomsOf(plan.rooms, ids) && |r.terrains| == |r.rooms|
      && (limits.iterations.Some? ==> |r.rooms| <= limits.iterations.value)
  {
    var rooms := RoomsOf(plan.rooms, ids);
    if limits.iterations.Some? && limits.iterations.value < |rooms| {
      NoIndexStopped(g, AnchorsOf(plan.anchors, ids), plan.constraints, rooms, limits, limits.iterations.value);
    }
  }

  lemma KeptRooms(rooms: seq<Room>, ids: set<string>)
    requires rooms != []
    ensures var n := |rooms| - 1;
      RoomsOf(rooms, ids) == RoomsOf(rooms[..n], ids) + if rooms[n].id in ids then [rooms[n]] else []
  {
    var n := |rooms| - 1;
    assert rooms == rooms[..n] + [rooms[n]] && [rooms[n]][1..] == [];
    FilterConcat(rooms[..n], [rooms[n]], (r: Room) => r.id in ids);
  }

  /** The same rooms, some left out: the same details, some left out, unless the clock runs out. */
  lemma {:induction false} FewerRooms(g: Generators, plan: Plan, all: set<string>, ids: set<string>,
                                      rooms: seq<Room>, limits: Limits, other: Limits)
    requires Local(g) && ids <= all && limits.iterations == other.iterations
    requires forall room :: room in rooms ==> room.id in all
    requires Limited(g, AnchorsOf(plan.anchors, all), plan.constraints, rooms, limits).Ok?
    ensures var ds := Limited(g, AnchorsOf(plan.anchors, all), plan.constraints, rooms, limits).value;
      var r := Limited(g, AnchorsOf(plan.anchors, ids), plan.constraints, RoomsOf(rooms, ids), other);
      r == Ok(Kept(rooms, ds, ids)) || (r == Err(TimeExhausted) && other.time.Some?)
  {
    if rooms != [] {
      var n := |rooms| - 1;
      FewerRooms(g, plan, all, ids, rooms[..n], limits, other);
      KeptRooms(rooms, ids);
      var front := RoomsOf(rooms[..n], ids);
      NoIndexStopped(g, AnchorsOf(plan.anchors, all), plan.constraints, rooms, limits, |front|);
      if rooms[n].id in ids {
        RoomAlone(g, plan, ids, all, rooms[n]);
      }
      FewerRoomsNext(Limited(g, AnchorsOf(plan.anchors, all), plan.constraints, rooms[..n], limits),
                     RoomDetail(g, FloorLabels(), AnchorsOf(plan.anchors, all), plan.constraints, rooms[n]),
                     Limited(g, AnchorsOf(plan.anchors, ids), plan.constraints, front, other),
                     rooms, ids, limits, other, |front|);
      assert RoomsOf(rooms, ids) == if rooms[n].id in ids then front + [rooms[n]] else front;
    }
  }

  /** One room more, with and without the rooms that were left out. */
  lemma FewerRoomsNext(done: Result<seq<Detail>>, d: Option<Detail>, kept: Result<seq<Detail>>, rooms: seq<Room>,
                       ids: set<string>,
                       limits: Limits, other: Limits, index: nat)
    requires rooms != [] && done.Ok? && |done.value| == |rooms| - 1
    requires LimitedNext(done, |rooms| - 1, limits, d, rooms[|rooms| - 1]).Ok? && !IterationsOut(other, index)
    requires kept == Ok(Kept(rooms[..|rooms| - 1], done.value, ids)) || (kept == Err(TimeExhausted) && other.time.Some?)
    ensures var n := |rooms| - 1;
      var ds := LimitedNext(done, n, limits, d, rooms[n]).value;
      var r := if rooms[n].id in ids then LimitedNext(kept, index, other, d, rooms[n]) else kept;
      |ds| == |rooms| && (r == Ok(Kept(rooms, ds, ids)) || (r == Err(TimeExhausted) && other.time.Some?))
  {
    var ds := done.value + [d.value];
    assert ds[..|rooms| - 1] == done.value && ds[|rooms| - 1] == d.value;
    if kept.Ok? {
      assert kept.value + [] == kept.value;
    }
  }

  /** Generators whose terrains and points name the room they are for. */
  ghost predicate OwnOutput(g: Generators) {
    && (forall room: Room, anchors, stream :: g.strategy(room, anchors, stream).Some? ==>
          g.repair(g.strategy(room, anchors, stream).value).roomId == room.id)
    && (forall room: Room, anchors, stream :: g.carve(room, anchors, stream).Some? ==>
          g.repair(g.carve(room, anchors, stream).value).roomId == room.id)
    && (forall room: Room, t, stream :: AllIn(g.items(room, t, stream), room.id))
    && (forall room: Room, t, occupied, stream :: AllIn(g.enemies(room, t, occupied, stream), room.id))
  }

  predicate AllIn(points: seq<SpawnPoint>, id: string) {
    forall p :: p in points ==> p.roomId == id
  }

  predicate DetailOf(d: Detail, id: string) {
    d.terrain.roomId == id && AllIn(d.items, id) && AllIn(d.enemies, id)
  }

  lemma DetailIsOwn(g: Generators, l: Labels, anchors: seq<Anchor>, constraints: seq<Constraint>, room: Room)
    requires OwnOutput(g) && RoomDetail(g, l, anchors, constraints, room).Some?
    ensures DetailOf(RoomDetail(g, l, anchors, constraints, room).value, room.id)
  {
    var carved := g.strategy(room, anchors, l.terrain + room.id);
    if carved.Some? {
      var t := g.repair(carved.value);
      var items := g.items(room, t, l.items + room.id);
      assert AllIn(items, room.id);
      assert AllIn(g.enemies(room, t, g.occupied(room, items), l.enemies + room.id), room.id);
    }
  }

  lemma {:induction false} DetailsAreOwn(g: Generators, anchors: seq<Anchor>, constraints: seq<Constraint>,
                                         rooms: seq<Room>, limits: Limits)
    requires OwnOutput(g) && Limited(g, anchors, constraints, rooms, limits).Ok?
    ensures var ds := Limited(g, anchors, constraints, rooms, limits).value;
      forall i :: 0 <= i < |rooms| ==> DetailOf(ds[i], rooms[i].id)
  {
    if rooms != [] {
      DetailsAreOwn(g, anchors, constraints, rooms[..|rooms| - 1], limits);
      DetailIsOwn(g, FloorLabels(), anchors, constraints, rooms[|rooms| - 1]);
    }
  }

  function PointsIn(points: seq<SpawnPoint>, ids: set<string>): seq<SpawnPoint> {
    Filter(points, (p: SpawnPoint) => p.roomId in ids)
  }

  function TerrainsIn(terrains: seq<Terrain>, ids: set<string>): seq<Terrain> {
    Filter(terrains, (t: Terrain) => t.roomId in ids)
  }

  lemma {:induction false} PointsOfOneRoom(points: seq<SpawnPoint>, id: string, ids: set<string>)
    requires AllIn(points, id)
    ensures PointsIn(points, ids) == if id in ids then points else []
  {
    if points != [] {
      assert points[0] in points;
      assert points == [points[0]] + points[1..];
      PointsOfOneRoom(points[1..], id, ids);
    }
  }

  lemma {:induction false} KeptLists(rooms: seq<Room>, ds: seq<Detail>, ids: set<string>)
    requires |rooms| == |ds| && forall i :: 0 <= i < |rooms| ==> DetailOf(ds[i], rooms[i].id)
    ensures var kept := Kept(rooms, ds, ids);
      Terrains(kept) == TerrainsIn(Terrains(ds), ids) && Items(kept) == PointsIn(Items(ds), ids)
      && Enemies(kept) == PointsIn(Enemies(ds), ids)
  {
    if rooms != [] {
      var n := |rooms| - 1;
      KeptLists(rooms[..n], ds[..n], ids);
      KeptListsNext(Kept(rooms[..n], ds[..n], ids), ds[..n], ds[n], rooms[n].id, ids);
      assert ds == ds[..n] + [ds[n]];
    }
  }

  lemma KeptListsNext(kept: seq<Detail>, all: seq<Detail>, d: Detail, id: string, ids: set<string>)
    requires DetailOf(d, id)
    requires Terrains(kept) == TerrainsIn(Terrains(all), ids) && Items(kept) == PointsIn(Items(all), ids)
    requires Enemies(kept) == PointsIn(Enemies(all), ids)
    ensures var more := kept + if id in ids then [d] else [];
      Terrains(more) == TerrainsIn(Terrains(all + [d]), ids) && Items(more) == PointsIn(Items(all + [d]), ids)
      && Enemies(more) == PointsIn(Enemies(all + [d]), ids)
  {
    Extended(all, d);
    TerrainsInNext(Terrains(all), d.terrain, ids);
    PointsInNext(Items(all), d.items, id, ids);
    PointsInNext(Enemies(all), d.enemies, id, ids);
    if id in ids {
      Extended(kept, d);
    } else {
      assert kept + [] == kept;
    }
  }

  lemma TerrainsInNext(terrains: seq<Terrain>, t: Terrain, ids: set<string>)
    ensures TerrainsIn(terrains + [t], ids)
         == if t.roomId in ids then TerrainsIn(terrains, ids) + [t] else TerrainsIn(terrains, ids)
  {
    assert [t][1..] == [];
    FilterConcat(terrains, [t], (t: Terrain) => t.roomId in ids);
  }

  lemma PointsInNext(points: seq<SpawnPoint>, more: seq<SpawnPoint>, id: string, ids: set<string>)
    requires AllIn(more, id)
    ensures PointsIn(points + more, ids) == if id in ids then PointsIn(points, ids) + more else PointsIn(points, ids)
  {
    FilterConcat(points, more, (p: SpawnPoint) => p.roomId in ids);
    PointsOfOneRoom(more, id, ids);
  }

  /** A result, restricted to some rooms. */
  function Restricted(r: Generated, ids: set<string>): Generated {
    Generated(RoomsOf(r.rooms, ids), AnchorsOf(r.anchors, ids), CorridorsOf(r.corridors, ids),
              TerrainsIn(r.terrains, ids), PointsIn(r.items, ids), PointsIn(r.enemies, ids))
  }

  /** Rooms, anchors and corridors are filtered from the filtered ones. */
  lemma FiltersNest(plan: Plan, all: set<string>, ids: set<string>)
    requires ids <= all
    ensures RoomsOf(RoomsOf(plan.rooms, all), ids) == RoomsOf(plan.rooms, ids)
    ensures AnchorsOf(AnchorsOf(plan.anchors, all), ids) == AnchorsOf(plan.anchors, ids)
    ensures CorridorsOf(CorridorsOf(plan.corridors, all), ids) == CorridorsOf(plan.corridors, ids)
  {
    FilterTwice(plan.rooms, (r: Room) => r.id in all, (r: Room) => r.id in ids);
    FilterTwice(plan.anchors, (a: Anchor) => a.roomId in all, (a: Anchor) => a.roomId in ids);
    FilterTwice(plan.corridors, (c: Corridor) => c.fromRoom in all || c.toRoom in all,
                (c: Corridor) => c.fromRoom in ids || c.toRoom in ids);
  }

  /** Fewer rooms pass the final checks too. */
  lemma FewerPass(plan: Plan, all: set<string>, ids: set<string>, ds: seq<Detail>)
    requires ids <= all && |ds| == |RoomsOf(plan.rooms, all)| && Assembled(plan, all, ds).Ok?
    requires forall i :: 0 <= i < |ds| ==> DetailOf(ds[i], RoomsOf(plan.rooms, all)[i].id)
    ensures Assembled(plan, ids, Kept(RoomsOf(plan.rooms, all), ds, ids))
         == Ok(Restricted(Assembled(plan, all, ds).value, ids))
  {
    var rooms := RoomsOf(plan.rooms, all);
    FiltersNest(plan, all, ids);
    FilterIsPart(rooms, (r: Room) => r.id in ids);
    OverlapOfParts(RoomsOf(plan.rooms, ids), rooms);
    KeptParts(rooms, ds, ids);
    ChecksOfParts(Kept(rooms, ds, ids), ds, plan);
    KeptLists(rooms, ds, ids);
  }

  /**
   If generating all chunks succeeds, then any request gives exactly that result restricted to the rooms
   of the requested chunks, unless a time budget runs out.
   */
  lemma RequestRestricts(g: Generators, plan: Plan, requested: seq<string>, limits: Limits, other: Limits)
    requires Local(g) && OwnOutput(g) && limits.iterations == other.iterations
    requires GeneratedFor(g, plan, TargetIds(plan.chunks, []), limits).Ok?
    ensures var ids := TargetIds(plan.chunks, requested);
      var r := GeneratedFor(g, plan, ids, other);
      || r == Ok(Restricted(GeneratedFor(g, plan, TargetIds(plan.chunks, []), limits).value, ids))
      || (r == Err(TimeExhausted) && other.time.Some?)
  {
    var all, ids := TargetIds(plan.chunks, []), TargetIds(plan.chunks, requested);
    var rooms := RoomsOf(plan.rooms, all);
    var ds := Limited(g, AnchorsOf(plan.anchors, all), plan.constraints, rooms, limits).value;
    FewerRooms(g, plan, all, ids, rooms, limits, other);
    FiltersNest(plan, all, ids);
    DetailsAreOwn(g, AnchorsOf(plan.anchors, all), plan.constraints, rooms, limits);
    FewerPass(plan, all, ids, ds);
  }

  /** Neither the order nor the repetition of requested ids makes a difference. */
  lemma RequestIsASet(g: Generators, plan: Plan, requested: seq<string>, other: seq<string>, limits: Limits)
    requires forall id :: id in requested <==> id in other
    ensures GeneratedFor(g, plan, TargetIds(plan.chunks, requested), limits)
         == GeneratedFor(g, plan, TargetIds(plan.chunks, other), limits)
  {
    assert requested != [] ==> requested[0] in other;
    assert other != [] ==> other[0] in requested;
    assert TargetIds(plan.chunks, requested) == TargetIds(plan.chunks, other);
  }

  /** Points come out of a room filtered, so the check of excluding zones never fails. */
  lemma {:induction false} NothingInExcludedZones(g: Generators, l: Labels, anchors: seq<Anchor>,
                                                  constraints: seq<Constraint>, rooms: seq<Room>)
    requires Details(g, l, anchors, constraints, rooms).Ok?
    ensures var ds := Details(g, l, anchors, constraints, rooms).value;
      forall p :: p in Items(ds) + Enemies(ds) ==> Permitted(p, constraints)
  {
    if rooms != [] {
      var front, last := rooms[..|rooms| - 1], rooms[|rooms| - 1];
      NothingInExcludedZones(g, l, anchors, constraints, front);
      Extended(Details(g, l, anchors, constraints, front).value, RoomDetail(g, l, anchors, constraints, last).value);
    }
  }
}
