/** File, environment and secrets laid over one another. */
module ConfigSources {
  import opened Wrappers
  import opened ConfigDocument
  import opened ConfigValues
  import Sequences

  /** A declared variable or secret file, how it is read, and the field it overrides. */
  datatype Binding = Binding(source: string, kind: Kind, section: string, field: string)

  function PathOf(b: Binding): (path: Path)
    ensures path != []
  {
    Target(b.section, b.field)
  }

  /** The text of each source that is present; none if it cannot be read. */
  type Sources = map<string, Option<string>>

  /** One layer: its bindings, in order, and the sources behind them. */
  datatype Layer = Layer(bindings: seq<Binding>, given: Sources)

  /** What the source of a binding says, if it is present; none inside if it does not parse. */
  function Said(p: Parsers, b: Binding, given: Sources): Option<Option<Override>> {
    if b.source !in given then None
    else if given[b.source].None? then Some(None)
    else Some(Resolve(p, b.kind, given[b.source].value))
  }

  // ---------- the loader ----------

  /** What one binding does to the document reached so far. */
  function Bound(p: Parsers, v: Option<Value>, b: Binding, given: Sources): Option<Value> {
    if v.None? then None
    else match Said(p, b, given)
      case None => v
      case Some(None) => None
      case Some(Some(o)) => Edit(v.value, PathOf(b), o)
  }

  /** What a layer makes of a document; none if a source does not parse or a path is blocked. */
  function ApplyAll(p: Parsers, v: Value, bindings: seq<Binding>, given: Sources): Option<Value> {
    if bindings == [] then Some(v)
    else Bound(p, ApplyAll(p, v, bindings[..|bindings| - 1], given), bindings[|bindings| - 1], given)
  }

  lemma ApplyNext(p: Parsers, v: Value, bindings: seq<Binding>, given: Sources, i: nat)
    requires i < |bindings|
    ensures ApplyAll(p, v, bindings[..i + 1], given)
         == Bound(p, ApplyAll(p, v, bindings[..i], given), bindings[i], given)
  {
    assert bindings[..i + 1][..i] == bindings[..i];
  }

  lemma {:induction false} FailureStays(p: Parsers, v: Value, bindings: seq<Binding>, given: Sources, i: nat)
    requires i <= |bindings| && ApplyAll(p, v, bindings[..i], given) == None
    ensures ApplyAll(p, v, bindings, given) == None
  {
    if i < |bindings| {
      var front := bindings[..|bindings| - 1];
      assert front[..i] == bindings[..i];
      FailureStays(p, v, front, given, i);
    } else {
      assert bindings[..i] == bindings;
    }
  }

  /** The variables of the environment can always be read. */
  function Readable(environment: map<string, string>): Sources {
    map name | name in environment :: Some(environment[name])
  }

  class Loader {
    const parsers: Parsers
    const environment: seq<Binding>
    const secrets: seq<Binding>

    constructor (parsers: Parsers, environment: seq<Binding>, secrets: seq<Binding>)
      ensures this.parsers == parsers && this.environment == environment && this.secrets == secrets
    {
      this.parsers, this.environment, this.secrets := parsers, environment, secrets;
    }

    method ApplyEnvironment(document: Document, given: map<string, string>) returns (ok: bool)
      modifies document
      ensures ApplyAll(parsers, old(document.root), environment, Readable(given))
           == if ok then Some(document.root) else None
    {
      for i := 0 to |environment|
        invariant ApplyAll(parsers, old(document.root), environment[..i], Readable(given)) == Some(document.root)
      {
        var b := environment[i];
        ApplyNext(parsers, old(document.root), environment, Readable(given), i);
        if b.source in given {
          var written := false;
          match Resolve(parsers, b.kind, given[b.source]) {
            case None =>
            case Some(Set(value)) => written := document.SetValue(b.section, b.field, value);
            case Some(Remove) => written := document.RemoveValue(b.section, b.field);
          }
          if !written {
            FailureStays(parsers, old(document.root), environment, Readable(given), i + 1);
            return false;
          }
        }
      }
      assert environment[..|environment|] == environment;
      return true;
    }

    /** Secret files are read as text or as JSON. */
    method ApplySecrets(document: Document, given: Sources) returns (ok: bool)
      requires forall i :: 0 <= i < |secrets| ==> secrets[i].kind.TextKind? || secrets[i].kind.JsonKind?
      modifies document
      ensures ApplyAll(parsers, old(document.root), secrets, given) == if ok then Some(document.root) else None
    {
      for i := 0 to |secrets|
        invariant ApplyAll(parsers, old(document.root), secrets[..i], given) == Some(document.root)
      {
        var b := secrets[i];
        ApplyNext(parsers, old(document.root), secrets, given, i);
        if b.source in given {
          var written := false;
          if given[b.source].Some? {
            var raw := given[b.source].value;
            var value := if b.kind.TextKind? then Some(Value.Text(raw)) else parsers.json(raw);
            if value.Some? {
              written := document.SetValue(b.section, b.field, value.value);
            }
          }
          if !written {
            FailureStays(parsers, old(document.root), secrets, given, i + 1);
            return false;
          }
        }
      }
      assert secrets[..|secrets|] == secrets;
      return true;
    }

    /**
     The environment over the file, then the secrets, if there are any, over both; `into` makes the typed
     configuration of the document.
     */
    method ParseWithSources<T>(raw: string, given: map<string, string>, provider: Option<Sources>,
                               into: Value -> Option<T>) returns (r: Option<T>)
      requires forall i :: 0 <= i < |secrets| ==> secrets[i].kind.TextKind? || secrets[i].kind.JsonKind?
      ensures r == Loaded(parsers, raw, Layer(environment, Readable(given)), Layer(secrets, Provided(provider)), into)
    {
      var file := parsers.toml(raw);
      if file.None? || !file.value.Table? {
        return None;
      }
      var document := new Document(file.value);
      var ok := ApplyEnvironment(document, given);
      if !ok {
        return None;
      }
      if provider.Some? {
        ok := ApplySecrets(document, provider.value);
      } else {
        NothingGiven(parsers, document.root, secrets);
      }
      return if ok then into(document.root) else None;
    }
  }

  function Provided(provider: Option<Sources>): Sources {
    if provider.None? then map[] else provider.value
  }

  lemma {:induction false} NothingGiven(p: Parsers, v: Value, bindings: seq<Binding>)
    ensures ApplyAll(p, v, bindings, map[]) == Some(v)
  {
    if bindings != [] {
      NothingGiven(p, v, bindings[..|bindings| - 1]);
    }
  }

  function Layered(p: Parsers, file: Value, environment: Layer, secrets: Layer): Option<Value> {
    if !file.Table? then None
    else match ApplyAll(p, file, environment.bindings, environment.given)
      case None => None
      case Some(v) => ApplyAll(p, v, secrets.bindings, secrets.given)
  }

  /** The configuration read from the text of a file and its two layers. */
  function Loaded<T>(p: Parsers, raw: string, environment: Layer, secrets: Layer, into: Value -> Option<T>): Option<T> {
    match p.toml(raw)
    case None => None
    case Some(file) =>
      match Layered(p, file, environment, secrets)
      case None => None
      case Some(document) => into(document)
  }

  // ---------- precedence ----------

  /** Within a layer no two bindings have the same or nested fields. */
  ghost predicate Independent(bindings: seq<Binding>) {
    forall i, j :: 0 <= i < j < |bindings| ==> Disjoint(PathOf(bindings[i]), PathOf(bindings[j]))
  }

  /** A path that each binding of the layer either names or does not meet. */
  ghost predicate Addressable(bindings: seq<Binding>, path: Path) {
    forall k :: 0 <= k < |bindings| ==> PathOf(bindings[k]) == path || Disjoint(PathOf(bindings[k]), path)
  }

  /** What the source of a binding makes of its field, if it says anything. */
  function FromSource(p: Parsers, l: Layer, b: Binding): Option<Override> {
    match Said(p, b, l.given)
    case None => None
    case Some(o) => o
  }

  /** What a layer says of a path: what the source of its binding says, if it has one. */
  ghost predicate SaysOf(p: Parsers, l: Layer, path: Path, o: Option<Override>) {
    && (forall k :: 0 <= k < |l.bindings| && PathOf(l.bindings[k]) == path ==> o == FromSource(p, l, l.bindings[k]))
    && ((forall k :: 0 <= k < |l.bindings| ==> PathOf(l.bindings[k]) != path) ==> o == None)
  }

  /** What an override leaves at a place below its field that held `before`. */
  function Outcome(o: Option<Override>, below: Path, before: Option<Value>): Option<Value> {
    match o
    case None => before
    case Some(Set(v)) => Lookup(v, below)
    case Some(Remove) => None
  }

  lemma {:induction false} LayerOutcome(p: Parsers, v: Value, l: Layer, path: Path,
                                        below: Path) returns (o: Option<Override>)
    requires ApplyAll(p, v, l.bindings, l.given).Some?
    requires path != [] && Independent(l.bindings) && Addressable(l.bindings, path)
    ensures SaysOf(p, l, path, o)
    ensures Lookup(ApplyAll(p, v, l.bindings, l.given).value, path + below)
         == Outcome(o, below, Lookup(v, path + below))
    decreases |l.bindings|
  {
    if l.bindings == [] {
      o := None;
    } else {
      var front, last := l.bindings[..|l.bindings| - 1], l.bindings[|l.bindings| - 1];
      var w := ApplyAll(p, v, front, l.given).value;
      var said := FromSource(p, l, last);
      o := LayerOutcome(p, v, Layer(front, l.given), path, below);
      if PathOf(last) == path {
        o := said;
        LastHere(p, l, path);
        if said.Some? {
          EditTakesEffect(w, path, said.value, below);
        }
      } else {
        LastElsewhere(p, l, path, o);
        if said.Some? {
          DisjointBelow(PathOf(last), path, below);
          EditKeepsOthers(w, PathOf(last), said.value, path + below);
        }
      }
    }
  }

  lemma LastHere(p: Parsers, l: Layer, path: Path)
    requires Independent(l.bindings) && l.bindings != [] && PathOf(l.bindings[|l.bindings| - 1]) == path
    ensures SaysOf(p, l, path, FromSource(p, l, l.bindings[|l.bindings| - 1]))
  {
    var last := |l.bindings| - 1;
    forall k | 0 <= k < last ensures PathOf(l.bindings[k]) != path {
      assert Disjoint(PathOf(l.bindings[k]), PathOf(l.bindings[last]));
    }
  }

  lemma LastElsewhere(p: Parsers, l: Layer, path: Path, o: Option<Override>)
    requires l.bindings != [] && PathOf(l.bindings[|l.bindings| - 1]) != path
    requires SaysOf(p, Layer(l.bindings[..|l.bindings| - 1], l.given), path, o)
    ensures SaysOf(p, l, path, o)
  {
    var front := l.bindings[..|l.bindings| - 1];
    assert forall k :: 0 <= k < |front| ==>
      l.bindings[k] == front[k] && FromSource(p, Layer(front, l.given), front[k]) == FromSource(p, l, front[k]);
  }

  lemma DisjointBelow(p: Path, q: Path, below: Path)
    requires Disjoint(p, q)
    ensures Disjoint(p, q + below)
  {
    assert q <= q + below;
    var n := if |p| <= |q| then |p| else |q|;
    assert p[..n] == q[..n] ==> (if n == |p| then p <= q else q <= p);
    assert n <= |q + below| && (q + below)[..n] == q[..n];
  }

  /**
   Precedence: at and below a field that the bindings name or do not meet, the document holds the secret
   if there is one, else what the environment says (a value, or absence), else what the file says.
   */
  lemma Precedence(p: Parsers, file: Value, environment: Layer, secrets: Layer, path: Path, below: Path)
    returns (e: Option<Override>, s: Option<Override>)
    requires Layered(p, file, environment, secrets).Some? && path != []
    requires Independent(environment.bindings) && Independent(secrets.bindings)
    requires Addressable(environment.bindings, path) && Addressable(secrets.bindings, path)
    ensures SaysOf(p, environment, path, e) && SaysOf(p, secrets, path, s)
    ensures Lookup(Layered(p, file, environment, secrets).value, path + below)
         == Outcome(if s.Some? then s else e, below, Lookup(file, path + below))
  {
    var middle := ApplyAll(p, file, environment.bindings, environment.given).value;
    e := LayerOutcome(p, file, environment, path, below);
    s := LayerOutcome(p, middle, secrets, path, below);
  }

  /** Some source sets a field under this path. */
  ghost predicate SetUnder(p: Parsers, l: Layer, q: Path) {
    exists k :: 0 <= k < |l.bindings| && SetsUnder(p, l, l.bindings[k], q)
  }

  predicate SetsUnder(p: Parsers, l: Layer, b: Binding, q: Path) {
    q <= PathOf(b) && FromSource(p, l, b).Some? && FromSource(p, l, b).value.Set?
  }

  function IsTable(v: Option<Value>): bool {
    v.Some? && v.value.Table?
  }

  /** A place above the fields: nothing is ever lost there, and the only new thing is a table holding a set field. */
  lemma {:induction false} AboveTheFields(p: Parsers, v: Value, l: Layer, q: Path)
    requires ApplyAll(p, v, l.bindings, l.given).Some?
    requires forall k :: 0 <= k < |l.bindings| ==> !(PathOf(l.bindings[k]) <= q)
    ensures var before, after := Lookup(v, q), Lookup(ApplyAll(p, v, l.bindings, l.given).value, q);
      && (IsTable(before) ==> IsTable(after))
      && (after.Some? <==> before.Some? || SetUnder(p, l, q))
      && (after.Some? && SetUnder(p, l, q) ==> IsTable(after))
      && (!IsTable(after) ==> before == after)
      && (before.Some? && !IsTable(before) ==> after == before)
    decreases |l.bindings|
  {
    if l.bindings != [] {
      var front, last := Layer(l.bindings[..|l.bindings| - 1], l.given), l.bindings[|l.bindings| - 1];
      var w := ApplyAll(p, v, front.bindings, l.given).value;
      AboveTheFields(p, v, front, q);
      OneMoreSets(p, l, q);
      if FromSource(p, l, last).Some? {
        AboveOneField(w, PathOf(last), FromSource(p, l, last).value, q);
      }
    }
  }

  /** The same of the whole document: above the fields there is what the file has, and tables for what was set. */
  lemma LayeredAboveTheFields(p: Parsers, file: Value, environment: Layer, secrets: Layer, q: Path)
    requires Layered(p, file, environment, secrets).Some?
    requires forall k :: 0 <= k < |environment.bindings| ==> !(PathOf(environment.bindings[k]) <= q)
    requires forall k :: 0 <= k < |secrets.bindings| ==> !(PathOf(secrets.bindings[k]) <= q)
    ensures var before, after := Lookup(file, q), Lookup(Layered(p, file, environment, secrets).value, q);
      var written := SetUnder(p, environment, q) || SetUnder(p, secrets, q);
      && (IsTable(before) ==> IsTable(after))
      && (after.Some? <==> before.Some? || written)
      && (after.Some? && written ==> IsTable(after))
      && (!IsTable(after) ==> before == after)
  {
    var middle := ApplyAll(p, file, environment.bindings, environment.given).value;
    AboveTheFields(p, file, environment, q);
    AboveTheFields(p, middle, secrets, q);
  }

  lemma OneMoreSets(p: Parsers, l: Layer, q: Path)
    requires l.bindings != []
    ensures var last := |l.bindings| - 1;
      SetUnder(p, l, q) <==> SetUnder(p, Layer(l.bindings[..last], l.given), q) || SetsUnder(p, l, l.bindings[last], q)
  {
    var front := Layer(l.bindings[..|l.bindings| - 1], l.given);
    forall k | 0 <= k < |front.bindings|
      ensures SetsUnder(p, l, l.bindings[k], q) == SetsUnder(p, front, front.bindings[k], q)
    {
      assert l.bindings[k] == front.bindings[k];
    }
  }

  lemma AboveOneField(v: Value, path: Path, o: Override, q: Path)
    requires path != [] && Edit(v, path, o).Some? && !(path <= q)
    ensures var before, after := Lookup(v, q), Lookup(Edit(v, path, o).value, q);
      && (q <= path ==> (after.Some? <==> before.Some? || o.Set?))
      && (q <= path && before.Some? ==> IsTable(before)) && (q <= path && after.Some? ==> IsTable(after))
      && (!(q <= path) ==> before == after)
  {
    if q <= path {
      assert q == path[..|q|];
      EditOnTheWay(v, path, o, |q|);
    } else {
      EditKeepsOthers(v, path, o, q);
    }
  }

  // ---------- what each field gets, and when loading succeeds ----------

  /** If a layer can be applied, each of its sources that is there can be read. */
  lemma AppliedResolves(p: Parsers, v: Value, bindings: seq<Binding>, given: Sources, i: nat)
    requires ApplyAll(p, v, bindings, given).Some? && i < |bindings|
    ensures Said(p, bindings[i], given) != Some(None)
  {
    ApplyNext(p, v, bindings, given, i);
    if Said(p, bindings[i], given) == Some(None) {
      FailureStays(p, v, bindings, given, i + 1);
    }
  }

  /** No source of the layer is there for this path. */
  ghost predicate SilentOn(l: Layer, path: Path) {
    forall k :: 0 <= k < |l.bindings| && PathOf(l.bindings[k]) == path ==> l.bindings[k].source !in l.given
  }

  /** What an override leaves at a field and below. */
  function Left(o: Override, below: Path): Option<Value> {
    match o
    case Set(v) => Lookup(v, below)
    case Remove => None
  }

  /** A field that a variable sets and no secret does holds what the text of the variable stands for. */
  lemma FieldFromEnvironment(p: Parsers, file: Value, environment: Layer, secrets: Layer, i: nat, below: Path)
    returns (o: Override)
    requires Layered(p, file, environment, secrets).Some? && i < |environment.bindings|
    requires Independent(environment.bindings) && Independent(secrets.bindings)
    requires var b := environment.bindings[i];
      && b.source in environment.given && environment.given[b.source].Some?
      && Addressable(secrets.bindings, PathOf(b)) && SilentOn(secrets, PathOf(b))
    ensures var b := environment.bindings[i];
      && StandsFor(p, b.kind, environment.given[b.source].value, o)
      && Lookup(Layered(p, file, environment, secrets).value, PathOf(b) + below) == Left(o, below)
  {
    var b := environment.bindings[i];
    var path := PathOf(b);
    OwnPathAddressable(environment.bindings, i);
    AppliedResolves(p, file, environment.bindings, environment.given, i);
    o := Resolve(p, b.kind, environment.given[b.source].value).value;
    ResolveExactly(p, b.kind, environment.given[b.source].value, o);
    var e, s := Precedence(p, file, environment, secrets, path, below);
    assert e == FromSource(p, environment, b);
    SilentSaysNothing(p, secrets, path, s);
  }

  /** The same of the configuration that is loaded: it is made of such a document. */
  lemma LoadedFromEnvironment<T>(p: Parsers, raw: string, environment: Layer, secrets: Layer, into: Value -> Option<T>,
                                 i: nat) returns (document: Value, o: Override)
    requires Loaded(p, raw, environment, secrets, into).Some? && i < |environment.bindings|
    requires Independent(environment.bindings) && Independent(secrets.bindings)
    requires var b := environment.bindings[i];
      && b.source in environment.given && environment.given[b.source].Some?
      && Addressable(secrets.bindings, PathOf(b)) && SilentOn(secrets, PathOf(b))
    ensures var b := environment.bindings[i];
      && Loaded(p, raw, environment, secrets, into) == into(document)
      && StandsFor(p, b.kind, environment.given[b.source].value, o) && Lookup(document, PathOf(b)) == Left(o, [])
  {
    var file := p.toml(raw).value;
    document := Layered(p, file, environment, secrets).value;
    o := FieldFromEnvironment(p, file, environment, secrets, i, []);
    var path := PathOf(environment.bindings[i]);
    assert path + [] == path;
  }

  /** A field that a secret sets holds what the secret stands for, whatever the environment says. */
  lemma FieldFromSecret(p: Parsers, file: Value, environment: Layer, secrets: Layer, i: nat, below: Path)
    returns (o: Override)
    requires Layered(p, file, environment, secrets).Some? && i < |secrets.bindings|
    requires Independent(environment.bindings) && Independent(secrets.bindings)
    requires var b := secrets.bindings[i];
      && b.source in secrets.given && Addressable(environment.bindings, PathOf(b))
    ensures var b := secrets.bindings[i];
      && secrets.given[b.source].Some? && StandsFor(p, b.kind, secrets.given[b.source].value, o)
      && Lookup(Layered(p, file, environment, secrets).value, PathOf(b) + below) == Left(o, below)
  {
    var b := secrets.bindings[i];
    var path := PathOf(b);
    var middle := ApplyAll(p, file, environment.bindings, environment.given).value;
    OwnPathAddressable(secrets.bindings, i);
    AppliedResolves(p, middle, secrets.bindings, secrets.given, i);
    o := Resolve(p, b.kind, secrets.given[b.source].value).value;
    ResolveExactly(p, b.kind, secrets.given[b.source].value, o);
    var e, s := Precedence(p, file, environment, secrets, path, below);
    assert s == FromSource(p, secrets, b);
  }

  /** A field that neither sets holds what the file says. */
  lemma FieldFromFile(p: Parsers, file: Value, environment: Layer, secrets: Layer, path: Path, below: Path)
    requires Layered(p, file, environment, secrets).Some? && path != []
    requires Independent(environment.bindings) && Independent(secrets.bindings)
    requires Addressable(environment.bindings, path) && Addressable(secrets.bindings, path)
    requires SilentOn(environment, path) && SilentOn(secrets, path)
    ensures Lookup(Layered(p, file, environment, secrets).value, path + below) == Lookup(file, path + below)
  {
    var e, s := Precedence(p, file, environment, secrets, path, below);
    SilentSaysNothing(p, environment, path, e);
    SilentSaysNothing(p, secrets, path, s);
  }

  lemma OwnPathAddressable(bindings: seq<Binding>, i: nat)
    requires Independent(bindings) && i < |bindings|
    ensures Addressable(bindings, PathOf(bindings[i]))
  {
    forall k | 0 <= k < |bindings| && k != i ensures Disjoint(PathOf(bindings[k]), PathOf(bindings[i])) {
      var a, b := if k < i then k else i, if k < i then i else k;
      assert Disjoint(PathOf(bindings[a]), PathOf(bindings[b]));
    }
  }

  lemma SilentSaysNothing(p: Parsers, l: Layer, path: Path, o: Option<Override>)
    requires SilentOn(l, path) && SaysOf(p, l, path, o)
    ensures o == None
  {
    if k :| 0 <= k < |l.bindings| && PathOf(l.bindings[k]) == path {
      assert FromSource(p, l, l.bindings[k]) == None;
    }
  }

  /** A value that is no table stands on the way to a path. */
  ghost predicate Blocked(v: Value, path: Path) {
    exists k :: 0 <= k < |path| && BlockedAt(v, path, k)
  }

  /** A binding without a source, or with one that stands for something and a way that is clear. */
  ghost predicate Appliable(p: Parsers, v: Value, b: Binding, given: Sources) {
    b.source in given ==>
      && given[b.source].Some? && (exists o :: StandsFor(p, b.kind, given[b.source].value, o))
      && !Blocked(v, PathOf(b))
  }

  ghost predicate AllAppliable(p: Parsers, v: Value, l: Layer) {
    forall i :: 0 <= i < |l.bindings| ==> Appliable(p, v, l.bindings[i], l.given)
  }

  lemma BoundExactly(p: Parsers, v: Value, b: Binding, given: Sources)
    ensures Bound(p, Some(v), b, given).Some? <==> Appliable(p, v, b, given)
  {
    if b.source in given && given[b.source].Some? {
      var raw := given[b.source].value;
      forall o ensures Resolve(p, b.kind, raw) == Some(o) <==> StandsFor(p, b.kind, raw, o) {
        ResolveExactly(p, b.kind, raw, o);
      }
      if Resolve(p, b.kind, raw).Some? {
        EditFailsAtNonTable(v, PathOf(b), Resolve(p, b.kind, raw).value);
      }
    }
  }

  /** Overrides elsewhere neither block a way nor clear it. */
  lemma WayUnchanged(p: Parsers, v: Value, l: Layer, path: Path)
    requires ApplyAll(p, v, l.bindings, l.given).Some?
    requires Addressable(l.bindings, path)
    ensures Blocked(ApplyAll(p, v, l.bindings, l.given).value, path) <==> Blocked(v, path)
  {
    var w := ApplyAll(p, v, l.bindings, l.given).value;
    forall k | 0 <= k < |path| ensures BlockedAt(w, path, k) <==> BlockedAt(v, path, k) {
      NoFieldAbove(l.bindings, path, k);
      AboveTheFields(p, v, l, path[..k]);
    }
  }

  lemma NoFieldAbove(bindings: seq<Binding>, path: Path, k: nat)
    requires Addressable(bindings, path) && k < |path|
    ensures forall i :: 0 <= i < |bindings| ==> !(PathOf(bindings[i]) <= path[..k])
  {
    forall i | 0 <= i < |bindings| ensures !(PathOf(bindings[i]) <= path[..k]) {
      FrontOfFront(PathOf(bindings[i]), path, k);
    }
  }

  lemma FrontOfFront(p: Path, path: Path, k: nat)
    requires k <= |path|
    ensures p <= path[..k] ==> p <= path && |p| <= k
  {
  }

  /** A layer can be applied exactly if each of its bindings can be on its own. */
  lemma {:induction false} LayerSucceeds(p: Parsers, v: Value, l: Layer)
    requires Independent(l.bindings)
    ensures ApplyAll(p, v, l.bindings, l.given).Some? <==> AllAppliable(p, v, l)
    decreases |l.bindings|
  {
    if l.bindings != [] {
      var last := |l.bindings| - 1;
      var front, b := Layer(l.bindings[..last], l.given), l.bindings[last];
      LayerSucceeds(p, v, front);
      LastAppliable(p, v, l, front, b);
      if ApplyAll(p, v, front.bindings, l.given).Some? {
        OwnPathAddressable(l.bindings, last);
        LastSucceeds(p, v, front, b);
      }
    }
  }

  lemma LastAppliable(p: Parsers, v: Value, l: Layer, front: Layer, b: Binding)
    requires l.bindings == front.bindings + [b] && front.given == l.given
    ensures AllAppliable(p, v, l) <==> AllAppliable(p, v, front) && Appliable(p, v, b, l.given)
  {
    forall i | 0 <= i < |front.bindings| ensures l.bindings[i] == front.bindings[i] {
    }
    assert l.bindings[|front.bindings|] == b;
  }

  lemma LastSucceeds(p: Parsers, v: Value, front: Layer, b: Binding)
    requires ApplyAll(p, v, front.bindings, front.given).Some? && Addressable(front.bindings, PathOf(b))
    ensures Bound(p, ApplyAll(p, v, front.bindings, front.given), b, front.given).Some?
       <==> Appliable(p, v, b, front.given)
  {
    WayUnchanged(p, v, front, PathOf(b));
    BoundExactly(p, ApplyAll(p, v, front.bindings, front.given).value, b, front.given);
  }

  /** Each field of one layer is a field of the other or does not meet any of its. */
  ghost predicate Compatible(a: seq<Binding>, b: seq<Binding>) {
    forall i :: 0 <= i < |b| ==> Addressable(a, PathOf(b[i]))
  }

  /** Both layers can be applied exactly if each binding can be, on its own, to the file. */
  lemma LayeredSucceeds(p: Parsers, file: Value, environment: Layer, secrets: Layer)
    requires Independent(environment.bindings) && Independent(secrets.bindings)
    requires Compatible(environment.bindings, secrets.bindings)
    ensures Layered(p, file, environment, secrets).Some?
       <==> file.Table? && AllAppliable(p, file, environment) && AllAppliable(p, file, secrets)
  {
    LayerSucceeds(p, file, environment);
    if file.Table? && AllAppliable(p, file, environment) {
      var middle := ApplyAll(p, file, environment.bindings, environment.given).value;
      LayerSucceeds(p, middle, secrets);
      forall i | 0 <= i < |secrets.bindings|
        ensures Appliable(p, middle, secrets.bindings[i], secrets.given)
           <==> Appliable(p, file, secrets.bindings[i], secrets.given)
      {
        WayUnchanged(p, file, environment, PathOf(secrets.bindings[i]));
      }
    }
  }

  // ---------- order ----------

  /** Bindings of different fields can be applied in either order. */
  lemma BindingsSwap(p: Parsers, v: Option<Value>, c: Binding, d: Binding, given: Sources)
    requires Disjoint(PathOf(c), PathOf(d))
    ensures Bound(p, Bound(p, v, c, given), d, given) == Bound(p, Bound(p, v, d, given), c, given)
  {
    var x, y := Said(p, c, given), Said(p, d, given);
    if v.Some? && x.Some? && x.value.Some? && y.Some? && y.value.Some? {
      EditsCommute(v.value, PathOf(c), x.value.value, PathOf(d), y.value.value);
    }
  }

  ghost predicate ClearOf(c: Binding, b: seq<Binding>) {
    forall i :: 0 <= i < |b| ==> Disjoint(PathOf(c), PathOf(b[i]))
  }

  /** A binding can be moved to the end past bindings it does not meet. */
  lemma {:induction false} MoveToEnd(p: Parsers, v: Value, a: seq<Binding>, c: Binding, b: seq<Binding>, given: Sources)
    requires ClearOf(c, b)
    ensures ApplyAll(p, v, a + [c] + b, given) == Bound(p, ApplyAll(p, v, a + b, given), c, given)
  {
    if b == [] {
      assert a + [c] + b == a + [c] && a + b == a;
    } else {
      var front, d := b[..|b| - 1], b[|b| - 1];
      MoveToEnd(p, v, a, c, front, given);
      assert b == front + [d];
      Sequences.Append2(a + [c], front, [d]);
      Sequences.Append2(a, front, [d]);
      BindingsSwap(p, ApplyAll(p, v, a + front, given), c, d, given);
    }
  }

  /** The order of the bindings makes no difference, neither to the document nor to success. */
  lemma {:induction false} OrderIrrelevant(p: Parsers, v: Value, xs: seq<Binding>, ys: seq<Binding>, given: Sources)
    requires Independent(xs) && multiset(xs) == multiset(ys)
    ensures ApplyAll(p, v, xs, given) == ApplyAll(p, v, ys, given)
    decreases |ys|
  {
    assert |multiset(xs)| == |multiset(ys)|;
    if ys != [] {
      var front, c := ys[..|ys| - 1], ys[|ys| - 1];
      assert ys == front + [c];
      var rest := Taken(p, v, xs, front, c, given);
      OrderIrrelevant(p, v, rest, front, given);
    }
  }

  /** A binding taken out of the list and put at its end. */
  lemma Taken(p: Parsers, v: Value, xs: seq<Binding>, front: seq<Binding>, c: Binding, given: Sources)
    returns (rest: seq<Binding>)
    requires Independent(xs) && multiset(xs) == multiset(front + [c])
    ensures Independent(rest) && multiset(rest) == multiset(front)
    ensures ApplyAll(p, v, xs, given) == Bound(p, ApplyAll(p, v, rest, given), c, given)
  {
    var k := Found(xs, front, c);
    var before, after := xs[..k], xs[k + 1..];
    RestIndependent(xs, k);
    RemoveOne(before, c, after, front);
    MoveToEnd(p, v, before, c, after, given);
    rest := before + after;
  }

  lemma Found<T>(xs: seq<T>, front: seq<T>, c: T) returns (k: nat)
    requires multiset(xs) == multiset(front + [c])
    ensures k < |xs| && xs[k] == c && xs == xs[..k] + [c] + xs[k + 1..]
  {
    assert c in multiset(front + [c]) && c in xs;
    k :| k < |xs| && xs[k] == c;
  }

  lemma RemoveOne<T>(a: seq<T>, c: T, b: seq<T>, front: seq<T>)
    requires multiset(a + [c] + b) == multiset(front + [c])
    ensures multiset(a + b) == multiset(front)
  {
    calc {
      multiset(a + b);
      multiset(a + [c] + b) - multiset{c};
      multiset(front + [c]) - multiset{c};
      multiset(front);
    }
  }

  lemma RestIndependent(xs: seq<Binding>, k: nat)
    requires Independent(xs) && k < |xs|
    ensures Independent(xs[..k] + xs[k + 1..])
    ensures ClearOf(xs[k], xs[k + 1..])
  {
    var rest := xs[..k] + xs[k + 1..];
    forall i, j | 0 <= i < j < |rest| ensures Disjoint(PathOf(rest[i]), PathOf(rest[j])) {
      assert rest[i] == xs[if i < k then i else i + 1] && rest[j] == xs[if j < k then j else j + 1];
    }
    var after := xs[k + 1..];
    forall i | 0 <= i < |after| ensures Disjoint(PathOf(xs[k]), PathOf(after[i])) {
      assert after[i] == xs[k + 1 + i];
    }
  }
}
