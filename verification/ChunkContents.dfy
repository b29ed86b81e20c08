/**
 What is in a filled chunk and in the result of a request, in terms of what the generators return; and
 which error there is otherwise.
 */
module ChunkContents {
  import opened Sequences
  import opened Chunked
  import Spacing

  // ---------- filters ----------

  /** The positions are those of the elements that pass. */
  ghost predicate Marks<T(!new)>(f: seq<nat>, all: seq<T>, pass: T -> bool) {
    forall k: nat :: k < |all| ==> (k in f <==> pass(all[k]))
  }

  /** The elements that pass, each as often as it was there, in their order. */
  ghost predicate Selected<T(!new)>(kept: seq<T>, all: seq<T>, pass: T -> bool) {
    exists f :: Embeds(f, kept, all) && Marks(f, all, pass)
  }

  function Shifted(f: seq<nat>): seq<nat> {
    seq(|f|, i requires 0 <= i < |f| => f[i] + 1)
  }

  lemma ShiftedMembers(f: seq<nat>, k: nat)
    ensures k in Shifted(f) <==> k > 0 && k - 1 in f
  {
    if k in Shifted(f) {
      var i :| 0 <= i < |f| && Shifted(f)[i] == k;
      assert f[i] == k - 1;
    }
    if k > 0 && k - 1 in f {
      var i :| 0 <= i < |f| && f[i] == k - 1;
      assert Shifted(f)[i] == k;
    }
  }

  lemma EmbedsLater<T>(f: seq<nat>, a: seq<T>, b: seq<T>, first: T)
    requires Embeds(f, a, b)
    ensures Embeds(Shifted(f), a, [first] + b) && Embeds([0] + Shifted(f), [first] + a, [first] + b)
  {
    var g, all := Shifted(f), [first] + b;
    forall i | 0 <= i < |a| ensures g[i] < |all| && a[i] == all[g[i]] {
      assert g[i] == f[i] + 1;
    }
    forall i, j | 0 <= i < j < |a| ensures g[i] < g[j] {
      assert f[i] < f[j];
    }
    EmbedsFirst(g, a, all, first);
  }

  lemma EmbedsFirst<T>(g: seq<nat>, a: seq<T>, all: seq<T>, first: T)
    requires Embeds(g, a, all) && all != [] && all[0] == first && forall i :: 0 <= i < |g| ==> g[i] > 0
    ensures Embeds([0] + g, [first] + a, all)
  {
  }

  lemma MarksLater<T(!new)>(f: seq<nat>, rest: seq<T>, first: T, pass: T -> bool)
    requires Marks(f, rest, pass)
    ensures Marks(if pass(first) then [0] + Shifted(f) else Shifted(f), [first] + rest, pass)
  {
    var h, all := if pass(first) then [0] + Shifted(f) else Shifted(f), [first] + rest;
    forall k: nat | k < |all| ensures k in h <==> pass(all[k]) {
      ShiftedMembers(f, k);
      if k > 0 {
        assert all[k] == rest[k - 1] && (k in h <==> k in Shifted(f));
      } else {
        assert all[k] == first && 0 !in Shifted(f);
      }
    }
  }

  /** Where the elements are that pass. */
  function Positions<T>(s: seq<T>, pass: T -> bool): seq<nat> {
    if s == [] then []
    else (if pass(s[0]) then [0] else []) + Shifted(Positions(s[1..], pass))
  }

  lemma {:induction false} FilterEmbeds<T(!new)>(s: seq<T>, pass: T -> bool)
    ensures Embeds(Positions(s, pass), Filter(s, pass), s)
  {
    if s != [] {
      FilterEmbeds(s[1..], pass);
      EmbedsLater(Positions(s[1..], pass), Filter(s[1..], pass), s[1..], s[0]);
      assert s == [s[0]] + s[1..];
      assert [] + Shifted(Positions(s[1..], pass)) == Shifted(Positions(s[1..], pass));
      assert [] + Filter(s[1..], pass) == Filter(s[1..], pass);
    }
  }

  lemma {:induction false} FilterMarks<T(!new)>(s: seq<T>, pass: T -> bool)
    ensures Marks(Positions(s, pass), s, pass)
  {
    if s != [] {
      FilterMarks(s[1..], pass);
      MarksLater(Positions(s[1..], pass), s[1..], s[0], pass);
      assert s == [s[0]] + s[1..];
      assert [] + Shifted(Positions(s[1..], pass)) == Shifted(Positions(s[1..], pass));
    }
  }

  lemma FilterSelects<T(!new)>(s: seq<T>, pass: T -> bool)
    ensures Selected(Filter(s, pass), s, pass)
  {
    FilterEmbeds(s, pass);
    FilterMarks(s, pass);
  }

  lemma SameSelection<T(!new)>(kept: seq<T>, all: seq<T>, pass: T -> bool, other: T -> bool)
    requires Selected(kept, all, pass) && forall x :: pass(x) == other(x)
    ensures Selected(kept, all, other)
  {
    var f :| Embeds(f, kept, all) && Marks(f, all, pass);
    assert Marks(f, all, other);
  }

  /** A selection holds exactly the elements that pass. */
  lemma SelectedMembers<T(!new)>(kept: seq<T>, all: seq<T>, pass: T -> bool, x: T)
    requires Selected(kept, all, pass)
    ensures x in kept <==> x in all && pass(x)
  {
    var f :| Embeds(f, kept, all) && Marks(f, all, pass);
    if x in kept {
      var i :| 0 <= i < |kept| && kept[i] == x;
      assert f[i] in f;
    }
    if x in all && pass(x) {
      var k :| 0 <= k < |all| && all[k] == x;
      var i :| 0 <= i < |f| && f[i] == k;
      assert kept[i] == x;
    }
  }

  // ---------- one room ----------

  /** No zone that excludes spawns holds the point. */
  ghost predicate Free(p: SpawnPoint, constraints: seq<Constraint>) {
    !exists k :: 0 <= k < |constraints| && Spacing.Forbids(constraints[k], p.pos)
  }

  ghost predicate OnlyFree(kept: seq<SpawnPoint>, all: seq<SpawnPoint>, constraints: seq<Constraint>) {
    Selected(kept, all, (p: SpawnPoint) => Free(p, constraints))
  }

  /** The terrain and the points of a room for which its strategy succeeds. */
  ghost predicate FilledByStrategy(g: Generators, l: Labels, constraints: seq<Constraint>, room: Room,
                                   carved: Terrain, d: Detail) {
    var items := g.items(room, d.terrain, l.items + room.id);
    && d.terrain == g.repair(carved)
    && OnlyFree(d.items, items, constraints)
    && OnlyFree(d.enemies, g.enemies(room, d.terrain, g.occupied(room, items), l.enemies + room.id), constraints)
  }

  /** What is in a room: its strategy decides; where it fails, there is the default carve and no points. */
  ghost predicate FilledFrom(g: Generators, l: Labels, anchors: seq<Anchor>, constraints: seq<Constraint>,
                             room: Room, d: Detail) {
    match g.strategy(room, anchors, l.terrain + room.id)
    case Some(carved) => FilledByStrategy(g, l, constraints, room, carved, d)
    case None =>
      && g.carve(room, anchors, l.fallback + room.id).Some?
      && d == Detail(g.repair(g.carve(room, anchors, l.fallback + room.id).value), [], [])
  }

  /** Neither the strategy nor the default carve can fill the room. */
  predicate Unfillable(g: Generators, l: Labels, anchors: seq<Anchor>, room: Room) {
    g.strategy(room, anchors, l.terrain + room.id).None? && g.carve(room, anchors, l.fallback + room.id).None?
  }

  lemma AllowedIsFree(points: seq<SpawnPoint>, constraints: seq<Constraint>)
    ensures OnlyFree(Allowed(points, constraints), points, constraints)
  {
    var pass := (p: SpawnPoint) => Permitted(p, constraints);
    FilterSelects(points, pass);
    SameSelection(Filter(points, pass), points, pass, (p: SpawnPoint) => Free(p, constraints));
  }

  lemma RoomExactly(g: Generators, l: Labels, anchors: seq<Anchor>, constraints: seq<Constraint>, room: Room)
    ensures RoomDetail(g, l, anchors, constraints, room).None? <==> Unfillable(g, l, anchors, room)
    ensures RoomDetail(g, l, anchors, constraints, room).Some? ==>
      FilledFrom(g, l, anchors, constraints, room, RoomDetail(g, l, anchors, constraints, room).value)
  {
    match g.strategy(room, anchors, l.terrain + room.id)
    case Some(carved) =>
      var t := g.repair(carved);
      var items := g.items(room, t, l.items + room.id);
      AllowedIsFree(items, constraints);
      AllowedIsFree(g.enemies(room, t, g.occupied(room, items), l.enemies + room.id), constraints);
    case None =>
  }

  // ---------- several rooms ----------

  /** The i-th detail fills the i-th room. */
  ghost predicate AllFilled(g: Generators, l: Labels, anchors: seq<Anchor>, constraints: seq<Constraint>,
                            rooms: seq<Room>, ds: seq<Detail>) {
    |ds| == |rooms| && forall i :: 0 <= i < |rooms| ==> FilledFrom(g, l, anchors, constraints, rooms[i], ds[i])
  }

  /** The lists hold the terrains and the points of these rooms, room by room. */
  ghost predicate Holds(g: Generators, l: Labels, anchors: seq<Anchor>, constraints: seq<Constraint>,
                        rooms: seq<Room>, terrains: seq<Terrain>, items: seq<SpawnPoint>, enemies: seq<SpawnPoint>) {
    exists ds: seq<Detail> :: AllFilled(g, l, anchors, constraints, rooms, ds)
      && terrains == seq(|ds|, i requires 0 <= i < |ds| => ds[i].terrain)
      && items == Flatten(seq(|ds|, i requires 0 <= i < |ds| => ds[i].items))
      && enemies == Flatten(seq(|ds|, i requires 0 <= i < |ds| => ds[i].enemies))
  }

  lemma {:induction false} ListsAreJoined(ds: seq<Detail>)
    ensures Terrains(ds) == seq(|ds|, i requires 0 <= i < |ds| => ds[i].terrain)
    ensures Items(ds) == Flatten(seq(|ds|, i requires 0 <= i < |ds| => ds[i].items))
    ensures Enemies(ds) == Flatten(seq(|ds|, i requires 0 <= i < |ds| => ds[i].enemies))
  {
    if ds != [] {
      var last := |ds| - 1;
      ListsAreJoined(ds[..last]);
      var front := ds[..last];
      var items := seq(|ds|, i requires 0 <= i < |ds| => ds[i].items);
      var enemies := seq(|ds|, i requires 0 <= i < |ds| => ds[i].enemies);
      assert items[..last] == seq(|front|, i requires 0 <= i < |front| => front[i].items);
      assert enemies[..last] == seq(|front|, i requires 0 <= i < |front| => front[i].enemies);
    }
  }

  lemma FilledHolds(g: Generators, l: Labels, anchors: seq<Anchor>, constraints: seq<Constraint>,
                    rooms: seq<Room>, ds: seq<Detail>)
    requires AllFilled(g, l, anchors, constraints, rooms, ds)
    ensures Holds(g, l, anchors, constraints, rooms, Terrains(ds), Items(ds), Enemies(ds))
  {
    ListsAreJoined(ds);
  }

  /** The first room that cannot be filled. */
  ghost predicate FirstUnfillable(g: Generators, l: Labels, anchors: seq<Anchor>, rooms: seq<Room>, j: nat) {
    && j < |rooms| && Unfillable(g, l, anchors, rooms[j])
    && forall i :: 0 <= i < j ==> !Unfillable(g, l, anchors, rooms[i])
  }

  lemma FilledNext(g: Generators, l: Labels, anchors: seq<Anchor>, constraints: seq<Constraint>, rooms: seq<Room>,
                   room: Room, ds: seq<Detail>, d: Detail)
    requires AllFilled(g, l, anchors, constraints, rooms, ds) && FilledFrom(g, l, anchors, constraints, room, d)
    ensures AllFilled(g, l, anchors, constraints, rooms + [room], ds + [d])
  {
  }

  lemma {:induction false} FillableUpTo(g: Generators, l: Labels, anchors: seq<Anchor>, constraints: seq<Constraint>,
                                        rooms: seq<Room>, n: nat)
    requires n <= |rooms| && forall i :: 0 <= i < |rooms| ==> !Unfillable(g, l, anchors, rooms[i])
    ensures var r := Details(g, l, anchors, constraints, rooms[..n]);
      r.Ok? && AllFilled(g, l, anchors, constraints, rooms[..n], r.value)
  {
    if n > 0 {
      var room := rooms[n - 1];
      FillableUpTo(g, l, anchors, constraints, rooms, n - 1);
      DetailsNext(g, l, anchors, constraints, rooms, n - 1);
      RoomExactly(g, l, anchors, constraints, room);
      var ds := Details(g, l, anchors, constraints, rooms[..n - 1]).value;
      var d := RoomDetail(g, l, anchors, constraints, room).value;
      FilledNext(g, l, anchors, constraints, rooms[..n - 1], room, ds, d);
      TakeNext(rooms, n - 1);
    }
  }

  lemma FillableRooms(g: Generators, l: Labels, anchors: seq<Anchor>, constraints: seq<Constraint>, rooms: seq<Room>)
    requires forall i :: 0 <= i < |rooms| ==> !Unfillable(g, l, anchors, rooms[i])
    ensures var r := Details(g, l, anchors, constraints, rooms);
      r.Ok? && AllFilled(g, l, anchors, constraints, rooms, r.value)
  {
    FillableUpTo(g, l, anchors, constraints, rooms, |rooms|);
    TakeAll(rooms);
  }

  lemma UnfillableRoom(g: Generators, l: Labels, anchors: seq<Anchor>, constraints: seq<Constraint>,
                       rooms: seq<Room>, j: nat)
    requires FirstUnfillable(g, l, anchors, rooms, j)
    ensures Details(g, l, anchors, constraints, rooms) == Err(StrategyFailed(rooms[j].id))
  {
    FillableRooms(g, l, anchors, constraints, rooms[..j]);
    RoomExactly(g, l, anchors, constraints, rooms[j]);
    DetailsNext(g, l, anchors, constraints, rooms, j);
    DetailsPrefix(g, l, anchors, constraints, rooms, j + 1);
  }

  // ---------- budgets ----------

  predicate PastTime(l: Limits, index: nat) {
    l.time.Some? && l.time.value <= l.elapsed(index)
  }

  predicate PastCount(l: Limits, index: nat) {
    l.iterations.Some? && l.iterations.value <= index
  }

  /** The budget of iterations is a 32-bit number. */
  predicate Counts32(l: Limits) {
    l.iterations.Some? ==> l.iterations.value < 0x1_0000_0000
  }

  /** The first of n indices at which the clock or the count is at a budget or past it, or n. */
  ghost predicate StopsAt(l: Limits, n: nat, k: nat) {
    && k <= n && (k < n ==> PastTime(l, k) || PastCount(l, k))
    && forall i: nat :: i < k ==> !PastTime(l, i) && !PastCount(l, i)
  }

  /** The 32-bit comparison of the index differs only after the count was used up. */
  lemma ExceededExactly(l: Limits, k: nat)
    requires Counts32(l) && forall i: nat :: i < k ==> !Exceeded(l, i)
    ensures (IterationsOut(l, k) <==> PastCount(l, k)) && (TimeOut(l, k) <==> PastTime(l, k))
  {
    if l.iterations.Some? {
      var b := l.iterations.value;
      assert IterationsOut(l, b) && Exceeded(l, b);
      assert k <= b;
    }
  }

  lemma ReachedStops(l: Limits, n: nat)
    requires Counts32(l)
    ensures StopsAt(l, n, Reached(l, n, 0))
  {
    var k := Reached(l, n, 0);
    forall i: nat | i < k ensures !PastTime(l, i) && !PastCount(l, i) {
      assert !Exceeded(l, i);
      ExceededExactly(l, i);
    }
    if k < n {
      ExceededExactly(l, k);
    }
  }

  // ---------- a filled chunk ----------

  /** The first chunk with this id. */
  ghost predicate FirstChunk(chunks: seq<Chunk>, id: string, c: Chunk) {
    exists k :: 0 <= k < |chunks| && chunks[k] == c && c.id == id && forall i :: 0 <= i < k ==> chunks[i].id != id
  }

  lemma {:induction false} FoundExactly(chunks: seq<Chunk>, id: string)
    ensures FindChunk(chunks, id).None? <==> forall i :: 0 <= i < |chunks| ==> chunks[i].id != id
    ensures FindChunk(chunks, id).Some? ==> FirstChunk(chunks, id, FindChunk(chunks, id).value)
  {
    if chunks != [] && chunks[0].id != id {
      var rest := chunks[1..];
      FoundExactly(rest, id);
      assert forall i :: 0 < i < |chunks| ==> chunks[i] == rest[i - 1];
      if FindChunk(rest, id).Some? {
        var c := FindChunk(rest, id).value;
        var k :| 0 <= k < |rest| && rest[k] == c && c.id == id && forall i :: 0 <= i < k ==> rest[i].id != id;
        assert chunks[k + 1] == c;
      }
    } else if chunks != [] {
      assert chunks[0] == FindChunk(chunks, id).value;
    }
  }

  /** The labels of the random streams of a chunk. */
  function StreamsOf(id: string): Labels {
    Labels("terrain:chunk:" + id + ":", "terrain:fallback:" + id + ":",
           "items:chunk:" + id + ":", "enemies:chunk:" + id + ":")
  }

  /** The outcome of the final checks. */
  ghost predicate CheckedOutcome(r: Result<ChunkDetail>, d: ChunkDetail, plan: Plan) {
    if !AllConnected(d.terrains) then r == Err(Disconnected)
    else if !WellPlaced(d.items + d.enemies, plan) then r == Err(BadSpacing)
    else r == Ok(d)
  }

  /** What filling a chunk gives when its rooms, taken in the order of the plan, are filled up to the n-th. */
  ghost predicate ChunkOutcome(g: Generators, plan: Plan, id: string, anchors: seq<Anchor>, rooms: seq<Room>,
                               partial: bool, r: Result<ChunkDetail>) {
    && (forall j: nat :: FirstUnfillable(g, StreamsOf(id), anchors, rooms, j) ==> r == Err(StrategyFailed(rooms[j].id)))
    && ((forall i :: 0 <= i < |rooms| ==> !Unfillable(g, StreamsOf(id), anchors, rooms[i])) ==>
          exists terrains, items, enemies ::
            && Holds(g, StreamsOf(id), anchors, plan.constraints, rooms, terrains, items, enemies)
            && CheckedOutcome(r, ChunkDetail(id, terrains, items, enemies, partial), plan))
  }

  lemma UnknownExactly(g: Generators, plan: Plan, id: string, limits: Limits)
    ensures (forall i :: 0 <= i < |plan.chunks| ==> plan.chunks[i].id != id) ==>
      Filled(g, plan, id, limits) == Err(UnknownChunk)
  {
    FoundExactly(plan.chunks, id);
  }

  /**
   What a chunk holds. Its rooms are those of the plan that its first entry names, in the order of the plan,
   up to the first index at which a budget is used up; each is filled by its generators with the streams of
   its chunk; and the result is partial if a room is left.
   */
  lemma ChunkHolds(g: Generators, plan: Plan, id: string, limits: Limits)
    returns (chunk: Chunk, rooms: seq<Room>, anchors: seq<Anchor>, n: nat)
    requires Counts32(limits) && exists i :: 0 <= i < |plan.chunks| && plan.chunks[i].id == id
    ensures FirstChunk(plan.chunks, id, chunk)
    ensures Selected(rooms, plan.rooms, (room: Room) => room.id in chunk.roomIds)
    ensures Selected(anchors, plan.anchors, (a: Anchor) => a.roomId in chunk.roomIds)
    ensures StopsAt(limits, |rooms|, n)
    ensures ChunkOutcome(g, plan, id, anchors, rooms[..n], n < |rooms|, Filled(g, plan, id, limits))
  {
    FoundExactly(plan.chunks, id);
    chunk := FindChunk(plan.chunks, id).value;
    var ids := IdSet(chunk.roomIds);
    rooms, anchors := RoomsOf(plan.rooms, ids), AnchorsOf(plan.anchors, ids);
    RoomsSelected(plan, chunk.roomIds);
    n := Reached(limits, |rooms|, 0);
    ReachedStops(limits, |rooms|);
    RoomsOutcome(g, plan, id, anchors, rooms[..n], n < |rooms|);
  }

  lemma RoomsSelected(plan: Plan, roomIds: seq<string>)
    ensures Selected(RoomsOf(plan.rooms, IdSet(roomIds)), plan.rooms, (room: Room) => room.id in roomIds)
    ensures Selected(AnchorsOf(plan.anchors, IdSet(roomIds)), plan.anchors, (a: Anchor) => a.roomId in roomIds)
  {
    var ids := IdSet(roomIds);
    FilterSelects(plan.rooms, (room: Room) => room.id in ids);
    FilterSelects(plan.anchors, (a: Anchor) => a.roomId in ids);
    SameSelection(RoomsOf(plan.rooms, ids), plan.rooms,
      (room: Room) => room.id in ids, (room: Room) => room.id in roomIds);
    SameSelection(AnchorsOf(plan.anchors, ids), plan.anchors,
      (a: Anchor) => a.roomId in ids, (a: Anchor) => a.roomId in roomIds);
  }

  lemma RoomsOutcome(g: Generators, plan: Plan, id: string, anchors: seq<Anchor>, rooms: seq<Room>, partial: bool)
    ensures ChunkOutcome(g, plan, id, anchors, rooms, partial,
      match Details(g, ChunkLabels(id), anchors, plan.constraints, rooms)
      case Err(error) => Err(error)
      case Ok(ds) => Finished(plan, id, ds, partial))
  {
    var l := StreamsOf(id);
    assert l == ChunkLabels(id);
    forall j: nat | FirstUnfillable(g, l, anchors, rooms, j)
      ensures Details(g, l, anchors, plan.constraints, rooms) == Err(StrategyFailed(rooms[j].id))
    {
      UnfillableRoom(g, l, anchors, plan.constraints, rooms, j);
    }
    if forall i :: 0 <= i < |rooms| ==> !Unfillable(g, l, anchors, rooms[i]) {
      FillableRooms(g, l, anchors, plan.constraints, rooms);
      var ds := Details(g, l, anchors, plan.constraints, rooms).value;
      FilledHolds(g, l, anchors, plan.constraints, rooms, ds);
      assert CheckedOutcome(Finished(plan, id, ds, partial),
        ChunkDetail(id, Terrains(ds), Items(ds), Enemies(ds), partial), plan);
    }
  }

  // ---------- a request ----------

  /** The labels of the random streams of a request. */
  function RequestStreams(): Labels {
    Labels("terrain:", "terrain:fallback:", "items:", "enemies:")
  }

  /** A chunk that is asked for names the room; an empty request asks for all. */
  ghost predicate Wanted(chunks: seq<Chunk>, requested: seq<string>, id: string) {
    exists k :: 0 <= k < |chunks| && (requested == [] || chunks[k].id in requested) && id in chunks[k].roomIds
  }

  /** Neither a budget nor a room stops the loop before this index. */
  ghost predicate NothingStops(g: Generators, anchors: seq<Anchor>, rooms: seq<Room>, limits: Limits, m: nat) {
    && m <= |rooms|
    && forall i: nat :: i < m ==>
      !PastTime(limits, i) && !PastCount(limits, i) && !Unfillable(g, RequestStreams(), anchors, rooms[i])
  }

  lemma NotExceeded(limits: Limits, m: nat)
    requires Counts32(limits) && forall i: nat :: i < m ==> !PastTime(limits, i) && !PastCount(limits, i)
    ensures forall i: nat :: i < m ==> !Exceeded(limits, i)
  {
    forall i: nat | i < m ensures !Exceeded(limits, i) {
      assert !PastTime(limits, i) && !PastCount(limits, i);
      assert i % 0x1_0000_0000 <= i;
    }
  }

  lemma {:induction false} FilledSoFar(g: Generators, anchors: seq<Anchor>, constraints: seq<Constraint>,
                                       rooms: seq<Room>, limits: Limits, m: nat)
    requires Counts32(limits) && NothingStops(g, anchors, rooms, limits, m)
    ensures var r := Limited(g, anchors, constraints, rooms[..m], limits);
      r.Ok? && AllFilled(g, RequestStreams(), anchors, constraints, rooms[..m], r.value)
  {
    if m > 0 {
      var room := rooms[m - 1];
      FilledSoFar(g, anchors, constraints, rooms, limits, m - 1);
      LimitedStep(g, anchors, constraints, rooms, limits, m - 1);
      NotExceeded(limits, m);
      assert !Exceeded(limits, m - 1) && !Unfillable(g, RequestStreams(), anchors, room);
      RoomExactly(g, RequestStreams(), anchors, constraints, room);
      var ds := Limited(g, anchors, constraints, rooms[..m - 1], limits).value;
      var d := RoomDetail(g, FloorLabels(), anchors, constraints, room).value;
      FilledNext(g, RequestStreams(), anchors, constraints, rooms[..m - 1], room, ds, d);
      TakeNext(rooms, m - 1);
    }
  }

  /** The loop stops at the first index at which the time, then the count, is used up, or the room cannot be filled. */
  lemma StopsHere(g: Generators, anchors: seq<Anchor>, constraints: seq<Constraint>, rooms: seq<Room>,
                  limits: Limits, m: nat)
    requires Counts32(limits) && NothingStops(g, anchors, rooms, limits, m) && m < |rooms|
    ensures var r := Limited(g, anchors, constraints, rooms, limits);
      && (PastTime(limits, m) ==> r == Err(TimeExhausted))
      && (!PastTime(limits, m) && PastCount(limits, m) ==> r == Err(IterationsExhausted))
      && (!PastTime(limits, m) && !PastCount(limits, m) && Unfillable(g, RequestStreams(), anchors, rooms[m]) ==>
            r == Err(StrategyFailed(rooms[m].id)))
  {
    FilledSoFar(g, anchors, constraints, rooms, limits, m);
    LimitedStep(g, anchors, constraints, rooms, limits, m);
    NotExceeded(limits, m);
    ExceededExactly(limits, m);
    RoomExactly(g, RequestStreams(), anchors, constraints, rooms[m]);
    if Limited(g, anchors, constraints, rooms[..m + 1], limits).Err? {
      LimitedFails(g, anchors, constraints, rooms, limits, m + 1);
    }
  }

  ghost predicate AssembledOutcome(r: Result<Generated>, d: Generated, plan: Plan) {
    if !NoOverlap(d.rooms) then r == Err(Overlapping)
    else if !AllConnected(d.terrains) then r == Err(Disconnected)
    else if !WellPlaced(d.items + d.enemies, plan) then r == Err(BadSpacing)
    else r == Ok(d)
  }

  /** What a request for these rooms gives. */
  ghost predicate RequestOutcome(g: Generators, plan: Plan, rooms: seq<Room>, anchors: seq<Anchor>,
                                 corridors: seq<Corridor>, limits: Limits, r: Result<Generated>) {
    && (forall m: nat :: NothingStops(g, anchors, rooms, limits, m) && m < |rooms| ==>
          && (PastTime(limits, m) ==> r == Err(TimeExhausted))
          && (!PastTime(limits, m) && PastCount(limits, m) ==> r == Err(IterationsExhausted))
          && (!PastTime(limits, m) && !PastCount(limits, m) && Unfillable(g, RequestStreams(), anchors, rooms[m]) ==>
                r == Err(StrategyFailed(rooms[m].id))))
    && (NothingStops(g, anchors, rooms, limits, |rooms|) ==>
          exists terrains, items, enemies ::
            && Holds(g, RequestStreams(), anchors, plan.constraints, rooms, terrains, items, enemies)
            && AssembledOutcome(r, Generated(rooms, anchors, corridors, terrains, items, enemies), plan))
  }

  /**
   What a request gives: the rooms of the plan that a chunk asked for names, in the order of the plan, with
   their anchors and the corridors that touch one of them, each room filled by its generators; or the first
   error that is met.
   */
  lemma RequestHolds(g: Generators, plan: Plan, requested: seq<string>, limits: Limits)
    returns (rooms: seq<Room>, anchors: seq<Anchor>, corridors: seq<Corridor>)
    requires Counts32(limits)
    ensures Selected(rooms, plan.rooms, (room: Room) => Wanted(plan.chunks, requested, room.id))
    ensures Selected(anchors, plan.anchors, (a: Anchor) => Wanted(plan.chunks, requested, a.roomId))
    ensures Selected(corridors, plan.corridors,
      (c: Corridor) => Wanted(plan.chunks, requested, c.fromRoom) || Wanted(plan.chunks, requested, c.toRoom))
    ensures RequestOutcome(g, plan, rooms, anchors, corridors, limits,
      GeneratedFor(g, plan, TargetIds(plan.chunks, requested), limits))
  {
    var ids := TargetIds(plan.chunks, requested);
    rooms, anchors := RoomsOf(plan.rooms, ids), AnchorsOf(plan.anchors, ids);
    corridors := CorridorsOf(plan.corridors, ids);
    WantedSelected(plan, requested);
    RequestedOutcome(g, plan, requested, limits);
  }

  lemma WantedExactly(chunks: seq<Chunk>, requested: seq<string>)
    ensures forall id :: id in TargetIds(chunks, requested) <==> Wanted(chunks, requested, id)
  {
    forall id ensures id in TargetIds(chunks, requested) <==> Wanted(chunks, requested, id) {
      if id in TargetIds(chunks, requested) {
        var c :| c in chunks && Requested(c, requested) && id in c.roomIds;
        var k :| 0 <= k < |chunks| && chunks[k] == c;
      }
      if Wanted(chunks, requested, id) {
        var k :| 0 <= k < |chunks| && (requested == [] || chunks[k].id in requested) && id in chunks[k].roomIds;
        assert chunks[k] in chunks && Requested(chunks[k], requested);
      }
    }
  }

  lemma WantedSelected(plan: Plan, requested: seq<string>)
    ensures var ids := TargetIds(plan.chunks, requested);
      && Selected(RoomsOf(plan.rooms, ids), plan.rooms, (room: Room) => Wanted(plan.chunks, requested, room.id))
      && Selected(AnchorsOf(plan.anchors, ids), plan.anchors, (a: Anchor) => Wanted(plan.chunks, requested, a.roomId))
      && Selected(CorridorsOf(plan.corridors, ids), plan.corridors,
           (c: Corridor) => Wanted(plan.chunks, requested, c.fromRoom) || Wanted(plan.chunks, requested, c.toRoom))
  {
    var ids := TargetIds(plan.chunks, requested);
    WantedExactly(plan.chunks, requested);
    FilterSelects(plan.rooms, (room: Room) => room.id in ids);
    FilterSelects(plan.anchors, (a: Anchor) => a.roomId in ids);
    FilterSelects(plan.corridors, (c: Corridor) => c.fromRoom in ids || c.toRoom in ids);
    SameSelection(RoomsOf(plan.rooms, ids), plan.rooms,
      (room: Room) => room.id in ids, (room: Room) => Wanted(plan.chunks, requested, room.id));
    SameSelection(AnchorsOf(plan.anchors, ids), plan.anchors,
      (a: Anchor) => a.roomId in ids, (a: Anchor) => Wanted(plan.chunks, requested, a.roomId));
    SameSelection(CorridorsOf(plan.corridors, ids), plan.corridors,
      (c: Corridor) => c.fromRoom in ids || c.toRoom in ids,
      (c: Corridor) => Wanted(plan.chunks, requested, c.fromRoom) || Wanted(plan.chunks, requested, c.toRoom));
  }

  lemma RequestedOutcome(g: Generators, plan: Plan, requested: seq<string>, limits: Limits)
    requires Counts32(limits)
    ensures var ids := TargetIds(plan.chunks, requested);
      RequestOutcome(g, plan, RoomsOf(plan.rooms, ids), AnchorsOf(plan.anchors, ids), CorridorsOf(plan.corridors, ids),
                     limits, GeneratedFor(g, plan, ids, limits))
  {
    var ids := TargetIds(plan.chunks, requested);
    var rooms, anchors := RoomsOf(plan.rooms, ids), AnchorsOf(plan.anchors, ids);
    forall m: nat | NothingStops(g, anchors, rooms, limits, m) && m < |rooms|
      ensures var r := Limited(g, anchors, plan.constraints, rooms, limits);
        && (PastTime(limits, m) ==> r == Err(TimeExhausted))
        && (!PastTime(limits, m) && PastCount(limits, m) ==> r == Err(IterationsExhausted))
        && (!PastTime(limits, m) && !PastCount(limits, m) && Unfillable(g, RequestStreams(), anchors, rooms[m]) ==>
              r == Err(StrategyFailed(rooms[m].id)))
    {
      StopsHere(g, anchors, plan.constraints, rooms, limits, m);
    }
    if NothingStops(g, anchors, rooms, limits, |rooms|) {
      FilledSoFar(g, anchors, plan.constraints, rooms, limits, |rooms|);
      assert rooms[..|rooms|] == rooms;
      var ds := Limited(g, anchors, plan.constraints, rooms, limits).value;
      FilledHolds(g, RequestStreams(), anchors, plan.constraints, rooms, ds);
      assert AssembledOutcome(GeneratedFor(g, plan, ids, limits),
        Generated(rooms, anchors, CorridorsOf(plan.corridors, ids), Terrains(ds), Items(ds), Enemies(ds)), plan);
    }
  }
}
