/** The domains of the generated client: the names of their methods all end up on one type. */
module Domains {
  import opened Identifiers
  import opened Numerals
  import opened Sequences
  import opened Sorting
  import Names
  import PathParams

  // ---------- the base name of an endpoint ----------

  /** An endpoint of a catalogue; `given` is the name the catalogue gives it, or empty. */
  datatype Endpoint = Endpoint(domain: string, path: string, goMethod: string, given: string, tokens: set<string>)

  /** The domain that a catalogue's text stands for. */
  function DomainOf(raw: string): string {
    if PathParams.Snake(raw) == "" then "root" else PathParams.Snake(raw)
  }

  function NonEmpty(parts: seq<string>): seq<string> {
    if parts == [] then [] else (if parts[0] == "" then [] else [parts[0]]) + NonEmpty(parts[1..])
  }

  function DropFirst(segments: seq<string>, word: string): seq<string> {
    if segments != [] && segments[0] == word then segments[1..] else segments
  }

  /** `v\d+` */
  predicate IsVersion(segment: string) {
    |segment| > 1 && segment[0] == 'v' && forall i :: 0 < i < |segment| ==> IsDigit(segment[i])
  }

  /** The segments in snake case, without versions, parameters and what has no letter or digit. */
  function Kept(segments: seq<string>): seq<string> {
    if segments == [] then []
    else
      var first := segments[0];
      var word := PathParams.Snake(first);
      (if IsVersion(first) || (first != "" && first[0] == ':') || word == "" then [] else [word]) + Kept(segments[1..])
  }

  predicate EndsWith(s: string, end: string) {
    |end| <= |s| && s[|s| - |end|..] == end
  }

  /** The last word gives way to a verb that repeats it. */
  function WithoutRepeat(words: seq<string>, verb: string): seq<string> {
    if words != [] && verb != "" && (verb == words[|words| - 1] || EndsWith(words[|words| - 1], "_" + verb))
    then words[..|words| - 1] else words
  }

  function NameParts(e: Endpoint): seq<string> {
    var segments := DropFirst(DropFirst(NonEmpty(SplitAll(e.path, '/')), "open-apis"), e.domain);
    var verb := PathParams.Snake(e.goMethod);
    [e.domain] + WithoutRepeat(Kept(segments), verb) + if verb != "" then [verb] else []
  }

  function BaseName(e: Endpoint): string {
    var parts := NameParts(e);
    Join(if |parts| == 1 then parts + ["call"] else parts, "_")
  }

  function Base(e: Endpoint): string {
    if e.given != "" then e.given else BaseName(e)
  }

  // ---------- the names of all domains ----------

  datatype Domain = Domain(name: string, endpoints: seq<Endpoint>)

  function Entries(d: Domain): seq<Names.Endpoint> {
    seq(|d.endpoints|, i requires 0 <= i < |d.endpoints| => Names.Endpoint(Base(d.endpoints[i]), d.endpoints[i].tokens))
  }

  predicate Prefixed(name: string, domain: string) {
    domain + "_" <= name
  }

  /** All endpoints are of the domain, and a given name begins with it. */
  predicate Owned(d: Domain) {
    forall i :: 0 <= i < |d.endpoints| ==>
      d.endpoints[i].domain == d.name && (d.endpoints[i].given == "" || Prefixed(d.endpoints[i].given, d.name))
  }

  /** These are the names emitted for the domain. */
  ghost predicate NamesOf(d: Domain, names: seq<string>) {
    exists picks :: Names.Named(Entries(d), picks, names)
  }

  /** Neither domain, with its underscore, begins the other. */
  predicate Apart(a: string, b: string) {
    !(a + "_" <= b + "_") && !(b + "_" <= a + "_")
  }

  ghost predicate AllApart(domains: seq<Domain>) {
    forall i, j :: 0 <= i < j < |domains| ==> Apart(domains[i].name, domains[j].name)
  }

  ghost predicate AllOwned(domains: seq<Domain>) {
    forall i :: 0 <= i < |domains| ==> Owned(domains[i])
  }

  lemma BaseIsPrefixed(e: Endpoint)
    ensures Prefixed(BaseName(e), e.domain)
  {
    var parts := NameParts(e);
    var all := if |parts| == 1 then parts + ["call"] else parts;
    assert all[0] == e.domain && |all| > 1;
    assert Join(all, "_") == e.domain + "_" + Join(all[1..], "_");
  }

  lemma EntryIsPrefixed(d: Domain, i: nat)
    requires Owned(d) && i < |d.endpoints|
    ensures Prefixed(Entries(d)[i].base, d.name)
  {
    BaseIsPrefixed(d.endpoints[i]);
  }

  /** Numbers and suffixes go to the end of a name. */
  lemma {:induction false} NamesArePrefixed(endpoints: seq<Names.Endpoint>, picks: seq<nat>, domain: string)
    requires |picks| == |endpoints|
    requires forall i :: 0 <= i < |endpoints| ==> Prefixed(endpoints[i].base, domain)
    ensures forall n :: n in Names.AllNames(endpoints, picks) ==> Prefixed(n, domain)
  {
    if endpoints != [] {
      var last := |endpoints| - 1;
      NamesArePrefixed(endpoints[..last], picks[..last], domain);
      var e := endpoints[last];
      forall n | n in Names.EndpointNames(e, picks[last]) ensures Prefixed(n, domain) {
        assert e.base <= Names.Candidate(e.base, picks[last]) <= n;
      }
    }
  }

  lemma PrefixesMeet(p: string, q: string, s: string)
    requires p <= s && q <= s
    ensures p <= q || q <= p
  {
    if |p| <= |q| {
      assert p == s[..|p|] == q[..|p|];
    } else {
      assert q == s[..|q|] == p[..|q|];
    }
  }

  ghost predicate Separate(a: seq<string>, b: seq<string>) {
    forall n :: n in a ==> n !in b
  }

  /** Domains that are apart share no name. */
  lemma ApartDomains(d: Domain, e: Domain, ds: seq<string>, es: seq<string>)
    requires Owned(d) && Owned(e) && Apart(d.name, e.name) && NamesOf(d, ds) && NamesOf(e, es)
    ensures Separate(ds, es)
  {
    AllPrefixed(d, ds);
    AllPrefixed(e, es);
    forall n | n in ds ensures n !in es {
      if n in es {
        PrefixesMeet(d.name + "_", e.name + "_", n);
      }
    }
  }

  lemma AllPrefixed(d: Domain, names: seq<string>)
    requires Owned(d) && NamesOf(d, names)
    ensures forall n :: n in names ==> Prefixed(n, d.name)
  {
    var picks :| Names.Named(Entries(d), picks, names);
    forall i | 0 <= i < |Entries(d)| ensures Prefixed(Entries(d)[i].base, d.name) {
      EntryIsPrefixed(d, i);
    }
    NamesArePrefixed(Entries(d), picks, d.name);
  }

  /** Each list belongs to the domain of its place. */
  ghost predicate AllNamed(domains: seq<Domain>, names: seq<seq<string>>) {
    |names| == |domains| && forall i :: 0 <= i < |domains| ==> NamesOf(domains[i], names[i])
  }

  /** The loop over the domains; the names in use are forgotten from one to the next. */
  method Generate(domains: seq<Domain>) returns (names: seq<seq<string>>)
    ensures AllNamed(domains, names)
    ensures AllOwned(domains) && AllApart(domains) ==> NoDuplicates(Flatten(names))
  {
    names := [];
    for i := 0 to |domains|
      invariant AllNamed(domains[..i], names)
    {
      var own, picks := Names.NameMethods(Entries(domains[i]));
      assert NamesOf(domains[i], own);
      names := names + [own];
    }
    assert domains[..|domains|] == domains;
    if AllOwned(domains) && AllApart(domains) {
      AllDistinct(domains, names);
    }
  }

  /** All methods of the client have different names if the domains are apart. */
  lemma {:induction false} AllDistinct(domains: seq<Domain>, names: seq<seq<string>>)
    requires AllOwned(domains) && AllApart(domains) && AllNamed(domains, names)
    ensures NoDuplicates(Flatten(names))
  {
    if domains != [] {
      var last := |domains| - 1;
      var before, own := Flatten(names[..last]), names[last];
      FrontHolds(domains, names, domains[..last], names[..last]);
      AllDistinct(domains[..last], names[..last]);
      OwnDistinct(domains[last], own);
      LastIsSeparate(domains, names, before, own);
      AppendDistinct(before, own);
    }
  }

  lemma FrontHolds(domains: seq<Domain>, names: seq<seq<string>>, front: seq<Domain>, lists: seq<seq<string>>)
    requires AllOwned(domains) && AllApart(domains) && AllNamed(domains, names)
    requires |front| == |lists| && front <= domains && lists <= names
    ensures AllOwned(front) && AllApart(front) && AllNamed(front, lists)
  {
    forall i | 0 <= i < |front| ensures NamesOf(front[i], lists[i]) {
      assert NamesOf(domains[i], names[i]);
    }
  }

  lemma OwnDistinct(d: Domain, names: seq<string>)
    requires NamesOf(d, names)
    ensures NoDuplicates(names)
  {
    var picks :| Names.Named(Entries(d), picks, names);
  }

  lemma LastIsSeparate(domains: seq<Domain>, names: seq<seq<string>>, before: seq<string>, own: seq<string>)
    requires AllOwned(domains) && AllApart(domains) && AllNamed(domains, names) && domains != []
    requires before == Flatten(names[..|names| - 1]) && own == names[|names| - 1]
    ensures Separate(before, own)
  {
    var last := |domains| - 1;
    forall n | n in before ensures n !in own {
      FlattenMembers(names[..last], n);
      var i :| 0 <= i < last && n in names[..last][i];
      ApartDomains(domains[i], domains[last], names[i], own);
    }
  }

  lemma AppendDistinct(a: seq<string>, b: seq<string>)
    requires NoDuplicates(a) && NoDuplicates(b) && Separate(a, b)
    ensures NoDuplicates(a + b)
  {
    forall i, j | 0 <= i < j < |a + b| ensures (a + b)[i] != (a + b)[j] {
      if i < |a| <= j {
        assert a[i] in a && b[j - |a|] in b;
      }
    }
  }

  // ---------- domains that are not apart ----------

  lemma DomainIsSnake(raw: string)
    ensures PathParams.IsSnake(DomainOf(raw))
  {
    PathParams.SnakeIsSnake(raw);
  }

  /** A domain with one endpoint at the root path, that needs no token. */
  function Single(domain: string, goMethod: string): Domain {
    Domain(domain, [Endpoint(domain, "/", goMethod, "", {})])
  }

  lemma SingleName(domain: string, verb: string)
    requires verb == "" || PathParams.IsSnake(verb)
    ensures var base := domain + "_" + if verb == "" then "call" else verb;
      Owned(Single(domain, verb)) && NamesOf(Single(domain, verb), [base + "_public"])
  {
    var d := Single(domain, verb);
    var e := d.endpoints[0];
    RootHasNoWords(domain);
    if verb == "" {
      assert PathParams.Snake("") == "";
    } else {
      PathParams.SnakeSame(verb);
    }
    var word := if verb == "" then "call" else verb;
    assert NameParts(e) == if verb == "" then [domain] else [domain, verb];
    JoinTwo(domain, word);
    var base := domain + "_" + word;
    assert Base(e) == base;
    OneEndpoint(Names.Endpoint(base, {}));
    assert Entries(d) == [Names.Endpoint(base, {})];
    assert Names.Named(Entries(d), [0], [base + "_public"]);
  }

  lemma JoinTwo(a: string, b: string)
    ensures Join([a, b], "_") == a + "_" + b
  {
    assert [a, b][1..] == [b];
  }

  lemma RootHasNoWords(domain: string)
    ensures Kept(DropFirst(DropFirst(NonEmpty(SplitAll("/", '/')), "open-apis"), domain)) == []
  {
    assert SplitAll("/", '/') == ["", ""];
    assert NonEmpty(["", ""]) == [];
  }

  lemma OneEndpoint(e: Names.Endpoint)
    requires e.tokens == {}
    ensures Names.Named([e], [0], [e.base + "_public"])
  {
    var endpoints, picks: seq<nat> := [e], [0];
    assert Names.Variants(e.tokens) == ["_public"];
    var names := Names.EndpointNames(e, 0);
    assert |names| == 1 && names[0] == Names.Candidate(e.base, 0) + "_public";
    assert Names.Candidate(e.base, 0) == e.base;
    assert names == [e.base + "_public"];
    assert endpoints[..0] == [] && picks[..0] == [];
    assert Names.AllNames(endpoints[..0], picks[..0]) == [];
    assert Names.AllNames(endpoints, picks) == [e.base + "_public"];
    assert Names.Members([]) == {};
    assert Names.Picked(endpoints, picks, 0);
  }

  lemma RestIsSnake(a: string, rest: string, word: string)
    requires PathParams.IsSnake(a) && PathParams.IsSnake(a + "_" + rest) && PathParams.IsSnake(word)
    ensures PathParams.IsSnake(rest + "_" + word)
  {
    var whole := a + "_" + rest;
    assert whole[|whole| - 1] != '_' && whole[|a|] == '_' && rest != "";
    forall i | 0 <= i < |rest| ensures rest[i] == whole[|a| + 1 + i] && rest[i] in whole {
    }
    assert rest[0] == whole[|a| + 1] && rest[|rest| - 1] == whole[|whole| - 1];
    forall i | 0 <= i < |rest| - 1 ensures !(rest[i] == '_' && rest[i + 1] == '_') {
      assert rest[i + 1] == whole[|a| + 1 + i + 1];
    }
    JoinedIsSnake(rest, word);
  }

  lemma JoinedIsSnake(a: string, b: string)
    requires PathParams.IsSnake(a) && PathParams.IsSnake(b)
    ensures PathParams.IsSnake(a + "_" + b)
  {
    var s, n := a + "_" + b, |a|;
    forall c | c in s ensures c in a || c in b || c == '_' {
    }
    forall i | 0 <= i < |s| - 1 ensures !(s[i] == '_' && s[i + 1] == '_') {
      if i + 1 < n {
        assert s[i] == a[i] && s[i + 1] == a[i + 1];
      } else if i > n {
        assert s[i] == b[i - n - 1] && s[i + 1] == b[i - n];
      }
    }
  }

  lemma Regroup(a: string, rest: string, word: string)
    ensures a + "_" + (rest + "_" + word) == a + "_" + rest + "_" + word
  {
  }

  lemma CallIsSnake()
    ensures PathParams.IsSnake("call")
  {
  }

  /** Names emitted for some catalogue of a domain. */
  ghost predicate Emits(domain: string, d: Domain, names: seq<string>) {
    d.name == domain && Owned(d) && NamesOf(d, names)
  }

  /** If one domain, with its underscore, begins the other, there are endpoints of the two with one name. */
  lemma SharedName(a: string, rest: string) returns (d: Domain, e: Domain, name: string)
    requires PathParams.IsSnake(a) && PathParams.IsSnake(a + "_" + rest)
    ensures Emits(a, d, [name]) && Emits(a + "_" + rest, e, [name])
    ensures d == Single(a, rest + "_" + "call") && e == Single(a + "_" + rest, "")
  {
    var b, word := a + "_" + rest, "call";
    var verb := rest + "_" + word;
    d, e, name := Single(a, verb), Single(b, ""), b + "_" + word + "_public";
    CallIsSnake();
    RestIsSnake(a, rest, word);
    SingleName(a, verb);
    SingleName(b, "");
    Regroup(a, rest, word);
  }

  lemma PrefixInside(a: string, b: string)
    requires a + "_" <= b + "_"
    ensures a == b || (|a| < |b| && b[..|a| + 1] == a + "_")
  {
    var text := b + "_";
    assert text[..|a|] == a && text[..|b|] == b && text[..|a| + 1] == a + "_";
  }

  lemma NotApart(a: string, b: string) returns (d: Domain, e: Domain, name: string)
    requires PathParams.IsSnake(a) && PathParams.IsSnake(b) && a != b && a + "_" <= b + "_"
    ensures Emits(a, d, [name]) && Emits(b, e, [name])
  {
    PrefixInside(a, b);
    var rest := b[|a| + 1..];
    assert b == b[..|a| + 1] + rest;
    d, e, name := SharedName(a, rest);
  }

  /** Two domains can never share a name exactly if they are apart. */
  lemma ApartExactly(a: string, b: string)
    requires PathParams.IsSnake(a) && PathParams.IsSnake(b) && a != b
    ensures Apart(a, b) <==> forall d, e, ds, es :: Emits(a, d, ds) && Emits(b, e, es) ==> Separate(ds, es)
  {
    if Apart(a, b) {
      forall d, e, ds, es | Emits(a, d, ds) && Emits(b, e, es) ensures Separate(ds, es) {
        ApartDomains(d, e, ds, es);
      }
    } else if a + "_" <= b + "_" {
      var d, e, name := NotApart(a, b);
      assert name in [name] && !Separate([name], [name]);
    } else {
      var e, d, name := NotApart(b, a);
      assert name in [name] && !Separate([name], [name]);
    }
  }

  /** So do the domains `a` and `a_b`, with the verbs `b_call` and none. */
  lemma DomainsCollide() returns (name: string)
    ensures Emits("a", Single("a", "b" + "_" + "call"), [name])
    ensures Emits("a" + "_" + "b", Single("a" + "_" + "b", ""), [name])
  {
    var d, e;
    d, e, name := SharedName("a", "b");
  }
}
