/** The sort-and-sweep check that no two rooms overlap, against the check of all pairs. */
module Overlap {
  import opened Wrappers
  import opened Geometry
  import opened Sorting

  datatype Bounds = Bounds(min: GridPoint, max: GridPoint)

  /** Strict overlap of half-open boxes; touching sides do not overlap. */
  predicate Intersects(a: Bounds, b: Bounds) {
    a.min.x < b.max.x && a.max.x > b.min.x && a.min.y < b.max.y && a.max.y > b.min.y
  }

  predicate Holds(a: Bounds, p: GridPoint) {
    a.min.x <= p.x < a.max.x && a.min.y <= p.y < a.max.y
  }

  predicate HasArea(a: Bounds) {
    a.min.x < a.max.x && a.min.y < a.max.y
  }

  function Greater(a: int, b: int): int {
    if a < b then b else a
  }

  /** Two boxes overlap exactly if they share a point. */
  lemma IntersectsExactly(a: Bounds, b: Bounds)
    requires HasArea(a) && HasArea(b)
    ensures Intersects(a, b) <==> exists p :: Holds(a, p) && Holds(b, p)
  {
    if Intersects(a, b) {
      var p := GridPoint(Greater(a.min.x, b.min.x), Greater(a.min.y, b.min.y));
      assert Holds(a, p) && Holds(b, p);
    }
  }

  /** The bounds of each room, where known. */
  type Rooms = seq<Option<Bounds>>

  /** Rooms i and j, in this order, both have bounds and the bounds overlap. */
  predicate Conflict(rooms: Rooms, i: int, j: int) {
    0 <= i < j < |rooms| && rooms[i].Some? && rooms[j].Some? && Intersects(rooms[i].value, rooms[j].value)
  }

  // ---------- the order of reports ----------

  type Pair = (int, int)

  predicate PairLeq(p: Pair, q: Pair) {
    p.0 < q.0 || (p.0 == q.0 && p.1 <= q.1)
  }

  /** Two ordered lists without repetitions and with the same members are the same list. */
  lemma {:induction false} SameList(a: seq<Pair>, b: seq<Pair>)
    requires Ordered(a, PairLeq) && NoDuplicates(a) && Ordered(b, PairLeq) && NoDuplicates(b)
    requires forall p :: p in a <==> p in b
    ensures a == b
  {
    assert a != [] ==> a[0] in b;
    assert b != [] ==> b[0] in a;
    if a != [] && b != [] {
      assert PairLeq(a[0], b[0]) && PairLeq(b[0], a[0]);
      forall p ensures p in a[1..] <==> p in b[1..] {
        assert p in a[1..] <==> p in a && p != a[0];
        assert p in b[1..] <==> p in b && p != b[0];
      }
      SameList(a[1..], b[1..]);
    }
  }

  // ---------- the check of all pairs ----------

  /** The conflicts of room i with rooms j, j + 1, ... */
  function ConflictsFrom(rooms: Rooms, i: nat, j: nat): seq<Pair>
    decreases |rooms| - j
  {
    if j >= |rooms| then []
    else (if Conflict(rooms, i, j) then [(i, j)] else []) + ConflictsFrom(rooms, i, j + 1)
  }

  /** Two nested loops over the rooms: the check that the sweep stands in for. */
  function AllConflicts(rooms: Rooms, i: nat): seq<Pair>
    decreases |rooms| - i
  {
    if i >= |rooms| then [] else ConflictsFrom(rooms, i, i + 1) + AllConflicts(rooms, i + 1)
  }

  lemma {:induction false} ConflictsFromMembers(rooms: Rooms, i: nat, j: nat)
    ensures forall p :: p in ConflictsFrom(rooms, i, j) <==> p.0 == i && p.1 >= j && Conflict(rooms, p.0, p.1)
    ensures Ordered(ConflictsFrom(rooms, i, j), PairLeq) && NoDuplicates(ConflictsFrom(rooms, i, j))
    decreases |rooms| - j
  {
    if j < |rooms| {
      ConflictsFromMembers(rooms, i, j + 1);
      var rest := ConflictsFrom(rooms, i, j + 1);
      assert forall k :: 0 <= k < |rest| ==> rest[k] in rest;
    }
  }

  lemma {:induction false} AllConflictsMembers(rooms: Rooms, i: nat)
    ensures forall p :: p in AllConflicts(rooms, i) <==> p.0 >= i && Conflict(rooms, p.0, p.1)
    ensures Ordered(AllConflicts(rooms, i), PairLeq) && NoDuplicates(AllConflicts(rooms, i))
    decreases |rooms| - i
  {
    if i < |rooms| {
      ConflictsFromMembers(rooms, i, i + 1);
      AllConflictsMembers(rooms, i + 1);
      var row, rest := ConflictsFrom(rooms, i, i + 1), AllConflicts(rooms, i + 1);
      assert forall k :: 0 <= k < |row| ==> row[k] in row;
      assert forall k :: 0 <= k < |rest| ==> rest[k] in rest;
    }
  }

  // ---------- the sweep ----------

  datatype Entry = Entry(index: nat, bounds: Bounds)

  predicate EntryLeq(a: Entry, b: Entry) {
    a.bounds.min.x < b.bounds.min.x
    || (a.bounds.min.x == b.bounds.min.x && a.bounds.min.y <= b.bounds.min.y)
  }

  /** The rooms with bounds, each with its position. */
  ghost predicate IndexedRooms(rooms: Rooms, entries: seq<Entry>) {
    && NoDuplicates(entries)
    && (forall e :: e in entries ==> e.index < |rooms| && rooms[e.index] == Some(e.bounds))
    && (forall i :: 0 <= i < |rooms| && rooms[i].Some? ==> Entry(i, rooms[i].value) in entries)
  }

  method Indexed(rooms: Rooms) returns (entries: seq<Entry>)
    ensures IndexedRooms(rooms, entries)
  {
    entries := [];
    for i := 0 to |rooms|
      invariant NoDuplicates(entries)
      invariant forall e :: e in entries ==> e.index < i && rooms[e.index] == Some(e.bounds)
      invariant forall k :: 0 <= k < i && rooms[k].Some? ==> Entry(k, rooms[k].value) in entries
    {
      if rooms[i].Some? {
        assert Entry(i, rooms[i].value) !in entries;
        entries := entries + [Entry(i, rooms[i].value)];
      }
    }
  }

  /** The two rooms at positions p and q of the sweep, in room order. */
  function PairAt(sorted: seq<Entry>, p: nat, q: nat): Pair
    requires p < |sorted| && q < |sorted|
  {
    var i, j := sorted[p].index, sorted[q].index;
    if i < j then (i, j) else (j, i)
  }

  /** Positions p and q overlap and are among those compared: p before a, or p at a and q before b. */
  ghost predicate Hit(sorted: seq<Entry>, p: nat, q: nat, a: nat, b: nat) {
    p < q < |sorted| && (p < a || (p == a && q < b)) && Intersects(sorted[p].bounds, sorted[q].bounds)
  }

  ghost predicate FoundAt(sorted: seq<Entry>, c: Pair, a: nat, b: nat) {
    exists p: nat, q: nat :: Hit(sorted, p, q, a, b) && c == PairAt(sorted, p, q)
  }

  /** The list holds what was found so far, once each. */
  ghost predicate Swept(sorted: seq<Entry>, found: seq<Pair>, a: nat, b: nat) {
    && NoDuplicates(found)
    && (forall p: nat, q: nat :: Hit(sorted, p, q, a, b) ==> PairAt(sorted, p, q) in found)
    && (forall c :: c in found ==> FoundAt(sorted, c, a, b))
  }

  ghost predicate DistinctIndices(sorted: seq<Entry>) {
    forall p, q :: 0 <= p < q < |sorted| ==> sorted[p].index != sorted[q].index
  }

  lemma SweepNext(sorted: seq<Entry>, found: seq<Pair>, a: nat, b: nat)
    requires DistinctIndices(sorted) && a < b < |sorted| && Swept(sorted, found, a, b)
    ensures !Intersects(sorted[a].bounds, sorted[b].bounds) ==> Swept(sorted, found, a, b + 1)
    ensures Intersects(sorted[a].bounds, sorted[b].bounds) ==>
      Swept(sorted, found + [PairAt(sorted, a, b)], a, b + 1)
  {
    var c := PairAt(sorted, a, b);
    forall p: nat, q: nat | Hit(sorted, p, q, a, b) ensures PairAt(sorted, p, q) != c {
    }
    assert !FoundAt(sorted, c, a, b);
    forall p: nat, q: nat | Hit(sorted, p, q, a, b + 1)
      ensures Hit(sorted, p, q, a, b) || (p == a && q == b) {
    }
    forall d | d in found ensures FoundAt(sorted, d, a, b + 1) {
      var p: nat, q: nat :| Hit(sorted, p, q, a, b) && d == PairAt(sorted, p, q);
      assert Hit(sorted, p, q, a, b + 1);
    }
    if Intersects(sorted[a].bounds, sorted[b].bounds) {
      assert Hit(sorted, a, b, a, b + 1);
    }
  }

  /** What the early exit skips cannot overlap. */
  lemma RowDone(sorted: seq<Entry>, found: seq<Pair>, a: nat, b: nat)
    requires a < b <= |sorted| && Ordered(sorted, EntryLeq) && Swept(sorted, found, a, b)
    requires b < |sorted| ==> sorted[b].bounds.min.x >= sorted[a].bounds.max.x
    ensures Swept(sorted, found, a + 1, a + 2)
  {
    forall q | b <= q < |sorted| ensures !Intersects(sorted[a].bounds, sorted[q].bounds) {
      assert q == b || EntryLeq(sorted[b], sorted[q]);
    }
    forall p: nat, q: nat | Hit(sorted, p, q, a + 1, a + 2) ensures Hit(sorted, p, q, a, b) {
    }
    forall c | c in found ensures FoundAt(sorted, c, a + 1, a + 2) {
      var p: nat, q: nat :| Hit(sorted, p, q, a, b) && c == PairAt(sorted, p, q);
      assert Hit(sorted, p, q, a + 1, a + 2);
    }
  }

  /** The inner loop, with its early exit. */
  method SweepRow(sorted: seq<Entry>, a: nat, found0: seq<Pair>) returns (found: seq<Pair>)
    requires DistinctIndices(sorted) && Ordered(sorted, EntryLeq) && a < |sorted|
    requires Swept(sorted, found0, a, a + 1)
    ensures Swept(sorted, found, a + 1, a + 2)
  {
    found := found0;
    var b := a + 1;
    while b < |sorted|
      invariant a < b <= |sorted| && Swept(sorted, found, a, b)
    {
      if sorted[b].bounds.min.x >= sorted[a].bounds.max.x {
        break;
      }
      SweepNext(sorted, found, a, b);
      if Intersects(sorted[a].bounds, sorted[b].bounds) {
        found := found + [PairAt(sorted, a, b)];
      }
      b := b + 1;
    }
    RowDone(sorted, found, a, b);
  }

  /** The conflicts are those of the check of all pairs: the same pairs, in the same order, once each. */
  method ValidateNoOverlap(rooms: Rooms) returns (conflicts: seq<Pair>)
    ensures conflicts == AllConflicts(rooms, 0)
  {
    var entries := Indexed(rooms);
    var sorted := Sort(entries, EntryLeq);
    SortOrdered(entries, EntryLeq);
    SortMembers(entries, EntryLeq);
    SortKeepsDistinct(entries, EntryLeq);
    forall p, q | 0 <= p < q < |sorted| ensures sorted[p].index != sorted[q].index {
      assert sorted[p] in entries && sorted[q] in entries;
    }
    var found: seq<Pair> := [];
    for a := 0 to |sorted|
      invariant Swept(sorted, found, a, a + 1)
    {
      found := SweepRow(sorted, a, found);
    }
    SweptAll(rooms, sorted, found);
    conflicts := Sort(found, PairLeq);
    SortOrdered(found, PairLeq);
    SortMembers(found, PairLeq);
    SortKeepsDistinct(found, PairLeq);
    AllConflictsMembers(rooms, 0);
    SameList(conflicts, AllConflicts(rooms, 0));
  }

  /** When the sweep is done it has found every conflict and nothing else. */
  lemma SweptAll(rooms: Rooms, sorted: seq<Entry>, found: seq<Pair>)
    requires forall e :: e in sorted ==> e.index < |rooms| && rooms[e.index] == Some(e.bounds)
    requires forall i :: 0 <= i < |rooms| && rooms[i].Some? ==> Entry(i, rooms[i].value) in sorted
    requires DistinctIndices(sorted) && Swept(sorted, found, |sorted|, |sorted| + 1)
    ensures forall c :: c in found <==> Conflict(rooms, c.0, c.1)
  {
    forall c: Pair | Conflict(rooms, c.0, c.1) ensures c in found {
      var e, f := Entry(c.0, rooms[c.0].value), Entry(c.1, rooms[c.1].value);
      var p: nat :| p < |sorted| && sorted[p] == e;
      var q: nat :| q < |sorted| && sorted[q] == f;
      var first, second := if p < q then p else q, if p < q then q else p;
      assert Hit(sorted, first, second, |sorted|, |sorted| + 1) && PairAt(sorted, first, second) == c;
    }
    forall c | c in found ensures Conflict(rooms, c.0, c.1) {
      assert FoundAt(sorted, c, |sorted|, |sorted| + 1);
      var p: nat, q: nat :| Hit(sorted, p, q, |sorted|, |sorted| + 1) && c == PairAt(sorted, p, q);
      assert sorted[p] in sorted && sorted[q] in sorted;
    }
  }

  /** The check succeeds exactly when no two rooms with bounds overlap. */
  lemma NoConflicts(rooms: Rooms)
    ensures AllConflicts(rooms, 0) == [] <==> forall i, j :: !Conflict(rooms, i, j)
  {
    AllConflictsMembers(rooms, 0);
    if exists i, j :: Conflict(rooms, i, j) {
      var i, j :| Conflict(rooms, i, j);
      assert (i, j) in AllConflicts(rooms, 0);
    }
    if AllConflicts(rooms, 0) != [] {
      var c := AllConflicts(rooms, 0)[0];
      assert c in AllConflicts(rooms, 0) && Conflict(rooms, c.0, c.1);
    }
  }
}
