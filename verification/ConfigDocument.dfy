/** Updates of one field in a nested configuration table. */
module ConfigDocument {
  import opened Wrappers
  import opened Identifiers

  datatype Value =
    | Table(entries: map<string, Value>)
    | Text(text: string)
    | Integer(number: int)
    | Float(float: real)
    | Boolean(flag: bool)
    | Array(items: seq<Value>)

  type Path = seq<string>

  /** The value at a path of keys. */
  function Lookup(v: Value, path: Path): Option<Value>
    decreases |path|
  {
    if path == [] then Some(v)
    else if v.Table? && path[0] in v.entries then Lookup(v.entries[path[0]], path[1..])
    else None
  }

  // ---------- walking to a section ----------

  datatype Walk = Found | Missing | NotTable

  /**
   `section_table_mut`: the document after the walk and how the walk ended. Tables that are missing
   are created on the way when `create` is set, whatever happens later.
   */
  function Touch(v: Value, segments: Path, create: bool): (Value, Walk)
    decreases |segments|
  {
    if !v.Table? then (v, NotTable)
    else if segments == [] then (v, Found)
    else if segments[0] !in v.entries && !create then (v, Missing)
    else
      var child := if segments[0] in v.entries then v.entries[segments[0]] else Table(map[]);
      var (touched, walk) := Touch(child, segments[1..], create);
      (Table(v.entries[segments[0] := touched]), walk)
  }

  /** The table at the end of a walk, replaced. */
  function Replaced(v: Value, segments: Path, table: Value): Value
    requires Lookup(v, segments).Some?
    decreases |segments|
  {
    if segments == [] then table
    else Table(v.entries[segments[0] := Replaced(v.entries[segments[0]], segments[1..], table)])
  }

  lemma {:induction false} TouchFinds(v: Value, segments: Path, create: bool)
    requires Touch(v, segments, create).1 == Found
    ensures var t := Lookup(Touch(v, segments, create).0, segments); t.Some? && t.value.Table?
    decreases |segments|
  {
    if segments != [] {
      var child := if segments[0] in v.entries then v.entries[segments[0]] else Table(map[]);
      TouchFinds(child, segments[1..], create);
    }
  }

  /** Creation is never followed by failure: a walk that does not find its table changes nothing. */
  lemma {:induction false} FailedWalkChangesNothing(v: Value, segments: Path, create: bool)
    ensures Touch(v, segments, create).1 != Found ==> Touch(v, segments, create).0 == v
    ensures v == Table(map[]) && create ==> Touch(v, segments, create).1 == Found
    ensures create ==> Touch(v, segments, create).1 != Missing
    ensures !create ==> Touch(v, segments, create).0 == v
    decreases |segments|
  {
    if v.Table? && segments != [] {
      var child := if segments[0] in v.entries then v.entries[segments[0]] else Table(map[]);
      FailedWalkChangesNothing(child, segments[1..], create);
    }
  }

  // ---------- the walk, step by step ----------

  lemma Overwritten<K, V>(m: map<K, V>, k: K, a: V, b: V)
    ensures m[k := a][k := b] == m[k := b]
  {
  }

  lemma {:induction false} ReplacedSame(v: Value, path: Path)
    requires Lookup(v, path).Some?
    ensures Replaced(v, path, Lookup(v, path).value) == v
    decreases |path|
  {
    if path != [] {
      ReplacedSame(v.entries[path[0]], path[1..]);
    }
  }

  /** An entry of the table at a path, written there and replaced. */
  lemma {:induction false} OneDeeper(v: Value, path: Path, entries: map<string, Value>, key: string, x: Value, y: Value)
    requires Lookup(v, path) == Some(Table(entries))
    ensures var w := Replaced(v, path, Table(entries[key := x]));
      && Lookup(w, path + [key]) == Some(x)
      && Replaced(w, path + [key], y) == Replaced(v, path, Table(entries[key := y]))
    decreases |path|
  {
    if path == [] {
      assert path + [key] == [key];
      Overwritten(entries, key, x, y);
    } else {
      var child := v.entries[path[0]];
      OneDeeper(child, path[1..], entries, key, x, y);
      assert (path + [key])[0] == path[0] && (path + [key])[1..] == path[1..] + [key];
      Overwritten(v.entries, path[0], Replaced(child, path[1..], Table(entries[key := x])),
        Replaced(child, path[1..], Table(entries[key := y])));
    }
  }

  /** The outcome of a walk that has come to this depth. */
  function Resumed(v: Value, segments: Path, depth: nat, create: bool): (Value, Walk)
    requires depth <= |segments| && Lookup(v, segments[..depth]).Some?
  {
    var (touched, walk) := Touch(Lookup(v, segments[..depth]).value, segments[depth..], create);
    (Replaced(v, segments[..depth], touched), walk)
  }

  /** One step down, into the entry that is there or into a table created for it. */
  lemma StepDown(v: Value, segments: Path, depth: nat, create: bool, entries: map<string, Value>, child: Value)
    requires depth < |segments| && Lookup(v, segments[..depth]) == Some(Table(entries))
    requires if segments[depth] in entries then child == entries[segments[depth]] else create && child == Table(map[])
    ensures var w := Replaced(v, segments[..depth], Table(entries[segments[depth] := child]));
      && (segments[depth] in entries ==> w == v)
      && Lookup(w, segments[..depth + 1]) == Some(child)
      && Resumed(w, segments, depth + 1, create) == Resumed(v, segments, depth, create)
  {
    var path, key := segments[..depth], segments[depth];
    var (touched, walk) := Touch(child, segments[depth + 1..], create);
    assert segments[depth..][0] == key && segments[depth..][1..] == segments[depth + 1..];
    assert segments[..depth + 1] == path + [key];
    OneDeeper(v, path, entries, key, child, touched);
    if key in entries {
      assert entries[key := child] == entries;
      ReplacedSame(v, path);
    }
  }

  // ---------- one edit ----------

  datatype Override = Set(value: Value) | Remove

  /** What an edit of one path makes of a document; none if a value on the way is not a table. */
  function Edit(v: Value, path: Path, o: Override): Option<Value>
    requires path != []
    decreases |path|
  {
    if !v.Table? then None
    else if |path| == 1 then
      Some(Table(if o.Set? then v.entries[path[0] := o.value] else v.entries - {path[0]}))
    else if path[0] !in v.entries && o.Remove? then Some(v)
    else
      match Edit(if path[0] in v.entries then v.entries[path[0]] else Table(map[]), path[1..], o)
      case None => None
      case Some(child) => Some(Table(v.entries[path[0] := child]))
  }

  function Target(section: string, field: string): (path: Path)
    ensures path != []
  {
    SplitAll(section, '.') + [field]
  }

  /** The path of a field is its section cut at every dot, and the field. */
  lemma TargetIsDotted(section: string, field: string)
    ensures Join(Target(section, field), ".") == section + "." + field
    ensures var n := |Target(section, field)| - 1;
      Target(section, field)[n] == field && forall i :: 0 <= i < n ==> '.' !in Target(section, field)[i]
  {
    JoinSplit(section, '.');
    JoinAppend(SplitAll(section, '.'), field, ".");
    PartsWithout(section, '.');
  }

  /** Walking, then inserting into or removing from the table found, is an edit. */
  lemma {:induction false} WalkThenUpdate(v: Value, segments: Path, field: string, o: Override)
    ensures var (touched, walk) := Touch(v, segments, o.Set?);
      match walk
      case NotTable => Edit(v, segments + [field], o) == None
      case Missing => o.Remove? && Edit(v, segments + [field], o) == Some(v)
      case Found =>
        var table := Lookup(touched, segments);
        table.Some? && table.value.Table?
        && Edit(v, segments + [field], o) == Some(Replaced(touched, segments,
             Table(if o.Set? then table.value.entries[field := o.value] else table.value.entries - {field})))
    decreases |segments|
  {
    if segments == [] {
      assert segments + [field] == [field];
    } else if v.Table? {
      var key := segments[0];
      var child := if key in v.entries then v.entries[key] else Table(map[]);
      WalkThenUpdate(child, segments[1..], field, o);
      assert (segments + [field])[0] == key && (segments + [field])[1..] == segments[1..] + [field];
      FailedWalkChangesNothing(child, segments[1..], o.Set?);
      var (touched, walk) := Touch(child, segments[1..], o.Set?);
      if key in v.entries || o.Set? {
        assert Touch(v, segments, o.Set?) == (Table(v.entries[key := touched]), walk);
        assert key in v.entries ==> v.entries[key := child] == v.entries;
      } else {
        assert Touch(v, segments, o.Set?) == (v, Missing) && Edit(v, segments + [field], o) == Some(v);
      }
      if walk == Found && (key in v.entries || o.Set?) {
        var outer := Table(v.entries[key := touched]);
        assert Touch(v, segments, o.Set?) == (outer, Found) && outer.entries[key] == touched;
        assert Lookup(outer, segments) == Lookup(touched, segments[1..]);
        var table := Lookup(touched, segments[1..]).value;
        var updated := Table(if o.Set? then table.entries[field := o.value] else table.entries - {field});
        var inner := Replaced(touched, segments[1..], updated);
        Overwritten(v.entries, key, touched, inner);
        assert Edit(child, segments[1..] + [field], o) == Some(inner);
        assert Replaced(outer, segments, updated) == Table(v.entries[key := inner]);
        assert Edit(v, segments + [field], o) == Some(Replaced(outer, segments, updated));
      }
    }
  }

  class Document {
    var root: Value

    constructor (root: Value)
      ensures this.root == root
    {
      this.root := root;
    }

    /** Walks to a section, creating its tables if asked to. */
    method SectionTable(section: string, create: bool) returns (walk: Walk)
      modifies this
      ensures (root, walk) == Touch(old(root), SplitAll(section, '.'), create)
    {
      var segments := SplitAll(section, '.');
      for depth := 0 to |segments|
        invariant Lookup(root, segments[..depth]).Some?
        invariant Resumed(root, segments, depth, create) == Touch(old(root), segments, create)
      {
        var path, key := segments[..depth], segments[depth];
        ReplacedSame(root, path);
        var current := Lookup(root, path).value;
        if !current.Table? {
          return NotTable;
        }
        if key !in current.entries && !create {
          return Missing;
        }
        var child := if key in current.entries then current.entries[key] else Table(map[]);
        StepDown(root, segments, depth, create, current.entries, child);
        root := Replaced(root, path, Table(current.entries[key := child]));
      }
      assert segments[..|segments|] == segments;
      ReplacedSame(root, segments);
      return if Lookup(root, segments).value.Table? then Found else NotTable;
    }

    /** A failed update leaves the document exactly as it was. */
    method SetValue(section: string, field: string, value: Value) returns (ok: bool)
      modifies this
      ensures ok == Edit(old(root), Target(section, field), Set(value)).Some?
      ensures ok ==> Edit(old(root), Target(section, field), Set(value)) == Some(root)
      ensures !ok ==> root == old(root)
    {
      var segments := SplitAll(section, '.');
      WalkThenUpdate(root, segments, field, Set(value));
      FailedWalkChangesNothing(root, segments, true);
      var walk := SectionTable(section, true);
      if walk != Found {
        return false;
      }
      var table := Lookup(root, segments).value;
      root := Replaced(root, segments, Table(table.entries[field := value]));
      return true;
    }

    method RemoveValue(section: string, field: string) returns (ok: bool)
      modifies this
      ensures ok == Edit(old(root), Target(section, field), Remove).Some?
      ensures ok ==> Edit(old(root), Target(section, field), Remove) == Some(root)
      ensures !ok ==> root == old(root)
    {
      var segments := SplitAll(section, '.');
      WalkThenUpdate(root, segments, field, Remove);
      FailedWalkChangesNothing(root, segments, false);
      var walk := SectionTable(section, false);
      if walk == NotTable {
        return false;
      }
      if walk == Found {
        var table := Lookup(root, segments).value;
        root := Replaced(root, segments, Table(table.entries - {field}));
      }
      return true;
    }
  }

  // ---------- what an edit does, path by path ----------

  /** Neither path leads through the other. */
  predicate Disjoint(p: Path, q: Path) {
    !(p <= q) && !(q <= p)
  }

  /** At and below the edited path there is the new value, or nothing. */
  lemma {:induction false} EditTakesEffect(v: Value, path: Path, o: Override, below: Path)
    requires path != [] && Edit(v, path, o).Some?
    ensures Lookup(Edit(v, path, o).value, path + below) == if o.Set? then Lookup(o.value, below) else None
    decreases |path|
  {
    var r := Edit(v, path, o).value;
    assert (path + below)[0] == path[0] && (path + below)[1..] == path[1..] + below;
    if |path| == 1 {
      assert path[1..] + below == below;
    } else if path[0] in r.entries {
      var child := if path[0] in v.entries then v.entries[path[0]] else Table(map[]);
      EditTakesEffect(child, path[1..], o, below);
    }
  }

  /** Paths that do not meet the edited one lead where they led before, even through tables just created. */
  lemma {:induction false} EditKeepsOthers(v: Value, path: Path, o: Override, q: Path)
    requires path != [] && Edit(v, path, o).Some? && Disjoint(path, q)
    ensures Lookup(Edit(v, path, o).value, q) == Lookup(v, q)
    decreases |path|
  {
    var r := Edit(v, path, o).value;
    assert q != [];
    if q[0] == path[0] {
      assert path == [path[0]] + path[1..] && q == [q[0]] + q[1..];
      assert |path| > 1;
      assert Disjoint(path[1..], q[1..]);
      if path[0] in r.entries {
        var child := if path[0] in v.entries then v.entries[path[0]] else Table(map[]);
        EditKeepsOthers(child, path[1..], o, q[1..]);
      }
    }
  }

  /** On the way to the edited path: setting makes every step a table, removing makes and unmakes none. */
  lemma {:induction false} EditOnTheWay(v: Value, path: Path, o: Override, k: nat)
    requires path != [] && Edit(v, path, o).Some? && k < |path|
    ensures var before, after := Lookup(v, path[..k]), Lookup(Edit(v, path, o).value, path[..k]);
      && (before.Some? ==> before.value.Table?) && (after.Some? ==> after.value.Table?)
      && (o.Set? ==> after.Some?) && (o.Remove? ==> (after.Some? <==> before.Some?))
    decreases |path|
  {
    if k > 0 {
      assert path[..k][0] == path[0] && path[..k][1..] == path[1..][..k - 1];
      if path[0] in v.entries || o.Set? {
        var child := if path[0] in v.entries then v.entries[path[0]] else Table(map[]);
        EditOnTheWay(child, path[1..], o, k - 1);
      }
    }
  }

  /** An edit fails exactly when some value on the way is there and is not a table. */
  lemma {:induction false} EditFailsAtNonTable(v: Value, path: Path, o: Override)
    requires path != []
    ensures Edit(v, path, o) == None <==> exists k :: 0 <= k < |path| && BlockedAt(v, path, k)
    decreases |path|
  {
    if !v.Table? {
      assert BlockedAt(v, path, 0);
    } else if |path| == 1 {
      assert !BlockedAt(v, path, 0);
    } else {
      var rest := path[1..];
      forall k | 0 < k < |path| ensures path[..k][0] == path[0] && path[..k][1..] == rest[..k - 1] {
      }
      if path[0] in v.entries {
        var child := v.entries[path[0]];
        EditFailsAtNonTable(child, rest, o);
        assert forall k :: 0 < k < |path| ==> (BlockedAt(v, path, k) <==> BlockedAt(child, rest, k - 1));
        assert forall k :: 0 <= k < |rest| ==> (BlockedAt(child, rest, k) <==> BlockedAt(v, path, k + 1));
      } else {
        EmptyTableAccepts(rest, o);
        assert forall k :: 0 <= k < |path| ==> !BlockedAt(v, path, k);
      }
    }
  }

  ghost predicate BlockedAt(v: Value, path: Path, k: nat)
    requires k <= |path|
  {
    Lookup(v, path[..k]).Some? && !Lookup(v, path[..k]).value.Table?
  }

  lemma {:induction false} EmptyTableAccepts(path: Path, o: Override)
    requires path != []
    ensures Edit(Table(map[]), path, o).Some?
    ensures o.Remove? ==> Edit(Table(map[]), path, o) == Some(Table(map[]))
    decreases |path|
  {
    if |path| > 1 {
      EmptyTableAccepts(path[1..], o);
    }
  }

  // ---------- edits of disjoint paths commute ----------

  function Then(v: Option<Value>, path: Path, o: Override): Option<Value>
    requires path != []
  {
    if v.None? then None else Edit(v.value, path, o)
  }

  lemma {:induction false} EditsCommute(v: Value, p: Path, o: Override, q: Path, u: Override)
    requires p != [] && q != [] && Disjoint(p, q)
    ensures Then(Edit(v, p, o), q, u) == Then(Edit(v, q, u), p, o)
    decreases |p|
  {
    if v.Table? {
      if p[0] != q[0] {
        DifferentKeysCommute(v, p, o, q, u);
      } else {
        assert p == [p[0]] + p[1..] && q == [q[0]] + q[1..];
        assert |p| > 1 && |q| > 1 && Disjoint(p[1..], q[1..]);
        var child := if p[0] in v.entries then v.entries[p[0]] else Table(map[]);
        EditsCommute(child, p[1..], o, q[1..], u);
        EmptyTableAccepts(p[1..], o);
        EmptyTableAccepts(q[1..], u);
        SameKeyCommutes(v, p, o, q, u, child);
      }
    }
  }

  lemma SameKeyCommutes(v: Value, p: Path, o: Override, q: Path, u: Override, child: Value)
    requires v.Table? && |p| > 1 && |q| > 1 && p[0] == q[0]
    requires child == if p[0] in v.entries then v.entries[p[0]] else Table(map[])
    requires Then(Edit(child, p[1..], o), q[1..], u) == Then(Edit(child, q[1..], u), p[1..], o)
    requires p[0] !in v.entries && o.Remove? ==> Edit(child, p[1..], o) == Some(child)
    requires p[0] !in v.entries && u.Remove? ==> Edit(child, q[1..], u) == Some(child)
    ensures Then(Edit(v, p, o), q, u) == Then(Edit(v, q, u), p, o)
  {
    if p[0] in v.entries || o.Set? {
      ThenThrough(v, p, o, q, u, child);
    }
    if p[0] in v.entries || u.Set? {
      ThenThrough(v, q, u, p, o, child);
    }
  }

  /** A table with one entry replaced by the outcome of an edit. */
  function Under(v: Value, key: string, child: Option<Value>): Option<Value>
    requires v.Table?
  {
    if child.None? then None else Some(Table(v.entries[key := child.value]))
  }

  /** Two edits through the same first key are two edits of the value there. */
  lemma ThenThrough(v: Value, p: Path, o: Override, q: Path, u: Override, child: Value)
    requires v.Table? && |p| > 1 && |q| > 1 && p[0] == q[0] && (p[0] in v.entries || o.Set?)
    requires child == if p[0] in v.entries then v.entries[p[0]] else Table(map[])
    ensures Then(Edit(v, p, o), q, u) == Under(v, p[0], Then(Edit(child, p[1..], o), q[1..], u))
  {
    var r := Edit(child, p[1..], o);
    if r.Some? {
      var w := Table(v.entries[p[0] := r.value]);
      var t := Edit(r.value, q[1..], u);
      if t.Some? {
        Overwritten(v.entries, p[0], r.value, t.value);
      }
    }
  }

  lemma DifferentKeysCommute(v: Value, p: Path, o: Override, q: Path, u: Override)
    requires p != [] && q != [] && v.Table? && p[0] != q[0]
    ensures Then(Edit(v, p, o), q, u) == Then(Edit(v, q, u), p, o)
  {
    if Edit(v, p, o).Some? && Edit(v, q, u).Some? {
      var a, b := Edit(v, p, o).value, Edit(v, q, u).value;
      KeyKept(v, a, p[0], q[0]);
      KeyKept(v, b, q[0], p[0]);
      var x, y := Edit(a, q, u).value, Edit(b, p, o).value;
      SameEntries(v, a, b, x, y, p[0], q[0]);
    } else {
      if Edit(v, p, o).Some? {
        var a := Edit(v, p, o).value;
        KeyKept(v, a, p[0], q[0]);
      }
      if Edit(v, q, u).Some? {
        var b := Edit(v, q, u).value;
        KeyKept(v, b, q[0], p[0]);
      }
    }
  }

  lemma KeyKept(v: Value, a: Value, k: string, other: string)
    requires v.Table? && a.Table? && k != other && a.entries - {k} == v.entries - {k}
    ensures other in a.entries <==> other in v.entries
    ensures other in v.entries ==> a.entries[other] == v.entries[other]
  {
    assert other in a.entries - {k} <==> other in a.entries;
    assert other in v.entries - {k} <==> other in v.entries;
    if other in v.entries {
      assert (a.entries - {k})[other] == a.entries[other] && (v.entries - {k})[other] == v.entries[other];
    }
  }

  lemma SameEntries(v: Value, a: Value, b: Value, x: Value, y: Value, k: string, l: string)
    requires v.Table? && a.Table? && b.Table? && x.Table? && y.Table? && k != l
    requires a.entries - {k} == v.entries - {k} && b.entries - {l} == v.entries - {l}
    requires x.entries - {l} == a.entries - {l} && y.entries - {k} == b.entries - {k}
    requires (k in y.entries <==> k in a.entries) && (k in a.entries ==> y.entries[k] == a.entries[k])
    requires (l in x.entries <==> l in b.entries) && (l in b.entries ==> x.entries[l] == b.entries[l])
    ensures x == y
  {
    KeyKept(a, x, l, k);
    KeyKept(b, y, k, l);
    forall m ensures (m in x.entries <==> m in y.entries) && (m in x.entries ==> x.entries[m] == y.entries[m]) {
      if m != k && m != l {
        KeyKept(v, a, k, m);
        KeyKept(v, b, l, m);
        KeyKept(a, x, l, m);
        KeyKept(b, y, k, m);
      }
    }
    assert x.entries == y.entries;
  }
}
