/** The name of a generated method, read off the path of its endpoint. */
module EndpointNames {
  import opened Identifiers
  import opened Numerals
  import opened Domains
  import opened Sequences
  import Names
  import PathParams

  /** A path with these segments. */
  function PathOf(segments: seq<string>): string {
    if segments == [] then "/" else "/" + Join(segments, "/")
  }

  predicate Slashless(segments: seq<string>) {
    forall i :: 0 <= i < |segments| ==> '/' !in segments[i]
  }

  /** A letter v with a number. */
  ghost predicate Version(segment: string) {
    exists digits :: segment == "v" + digits && AllDigits(digits)
  }

  predicate AllDigits(s: string) {
    s != "" && forall i :: 0 <= i < |s| ==> IsDigit(s[i])
  }

  /** A version, a parameter, or a segment with neither letter nor digit. */
  ghost predicate Skipped(segment: string) {
    || Version(segment)
    || ":" <= segment
    || forall i :: 0 <= i < |segment| ==> !PathParams.IsAlnum(segment[i])
  }

  ghost predicate NoneSkipped(segments: seq<string>) {
    forall i :: 0 <= i < |segments| ==> !Skipped(segments[i])
  }

  function SnakeWords(segments: seq<string>): seq<string> {
    seq(|segments|, i requires 0 <= i < |segments| => PathParams.Snake(segments[i]))
  }

  /** The verb is the last word, or its end after an underscore. */
  ghost predicate Repeats(words: seq<string>, verb: string) {
    && words != [] && verb != ""
    && (words[|words| - 1] == verb || exists front: string :: words[|words| - 1] == front + "_" + verb)
  }

  /** The name for a domain, the words of a path and a verb. */
  ghost predicate NameIs(name: string, domain: string, words: seq<string>, verb: string) {
    if verb == "" then name == Join([domain] + if words == [] then ["call"] else words, "_")
    else if Repeats(words, verb) then name == Join([domain] + words[..|words| - 1] + [verb], "_")
    else name == Join([domain] + words + [verb], "_")
  }

  // ---------- segments ----------

  lemma VersionExactly(segment: string)
    ensures IsVersion(segment) <==> Version(segment)
  {
    if IsVersion(segment) {
      var digits := segment[1..];
      assert segment == "v" + digits && AllDigits(digits);
    }
    if Version(segment) {
      var digits :| segment == "v" + digits && AllDigits(digits);
      assert forall i :: 0 < i < |segment| ==> segment[i] == digits[i - 1];
    }
  }

  lemma {:induction false} NoAlnumExactly(s: string)
    ensures PathParams.FirstAlnum(s).None? <==> forall i :: 0 <= i < |s| ==> !PathParams.IsAlnum(s[i])
  {
    if s != "" {
      NoAlnumExactly(s[1..]);
      assert forall i :: 0 < i < |s| ==> s[i] == s[1..][i - 1];
    }
  }

  lemma KeptOne(segment: string)
    ensures Kept([segment]) == if Skipped(segment) then [] else [PathParams.Snake(segment)]
    ensures segment == "" ==> Skipped(segment)
  {
    VersionExactly(segment);
    NoAlnumExactly(segment);
    PathParams.SnakeBegins(segment);
    assert ":" <= segment <==> segment != "" && segment[0] == ':';
    assert Kept([segment][1..]) == [];
  }

  lemma {:induction false} KeptConcat(a: seq<string>, b: seq<string>)
    ensures Kept(a + b) == Kept(a) + Kept(b)
  {
    if a == [] {
      assert a + b == b;
    } else {
      assert (a + b)[1..] == a[1..] + b;
      KeptConcat(a[1..], b);
    }
  }

  lemma SnakeWordsNext(front: seq<string>, last: string)
    ensures SnakeWords(front + [last]) == SnakeWords(front) + [PathParams.Snake(last)]
  {
  }

  lemma KeptNext(front: seq<string>, last: string)
    requires Kept(front) == SnakeWords(front) && !Skipped(last)
    ensures Kept(front + [last]) == SnakeWords(front + [last])
  {
    KeptOne(last);
    KeptConcat(front, [last]);
    SnakeWordsNext(front, last);
  }

  lemma {:induction false} KeptUpTo(segments: seq<string>, n: nat)
    requires NoneSkipped(segments) && n <= |segments|
    ensures Kept(segments[..n]) == SnakeWords(segments[..n])
  {
    if n > 0 {
      KeptUpTo(segments, n - 1);
      KeptNext(segments[..n - 1], segments[n - 1]);
      TakeNext(segments, n - 1);
    }
  }

  lemma KeptAll(segments: seq<string>)
    requires NoneSkipped(segments)
    ensures Kept(segments) == SnakeWords(segments)
  {
    KeptUpTo(segments, |segments|);
    TakeAll(segments);
  }

  lemma KeptAfter(first: string, rest: seq<string>, others: seq<string>)
    requires Kept(rest) == Kept(others)
    ensures Kept([first] + rest) == Kept([first] + others)
    ensures first == "" ==> Kept([first] + rest) == Kept(others)
  {
    KeptOne(first);
    KeptConcat([first], rest);
    KeptConcat([first], others);
  }

  lemma NonEmptyNext(first: string, rest: seq<string>)
    ensures NonEmpty([first] + rest) == if first == "" then NonEmpty(rest) else [first] + NonEmpty(rest)
  {
    assert ([first] + rest)[1..] == rest;
    assert [] + NonEmpty(rest) == NonEmpty(rest);
  }

  lemma {:induction false} NonEmptyKept(segments: seq<string>)
    ensures Kept(NonEmpty(segments)) == Kept(segments)
  {
    if segments != [] {
      NonEmptyKept(segments[1..]);
      NonEmptyNext(segments[0], segments[1..]);
      KeptAfter(segments[0], segments[1..], NonEmpty(segments[1..]));
      assert segments == [segments[0]] + segments[1..];
    }
  }

  lemma SkippedKept(before: seq<string>, segment: string, after: seq<string>)
    requires Skipped(segment)
    ensures Kept(before + [segment] + after) == Kept(before + after)
  {
    KeptOne(segment);
    KeptConcat(before, after);
    KeptConcat(before, [segment]);
    KeptConcat(before + [segment], after);
  }

  // ---------- what comes before the words ----------

  lemma SplitPath(segments: seq<string>)
    requires Slashless(segments)
    ensures NonEmpty(SplitAll(PathOf(segments), '/')) == NonEmpty(segments)
  {
    var path := PathOf(segments);
    if segments == [] {
      assert SplitAll("/", '/') == ["", ""] && ["", ""][1..] == [""] && [""][1..] == [];
    } else {
      SplitJoin(segments, '/');
      assert path[1..] == Join(segments, "/");
      assert SplitAll(path, '/') == [""] + segments && ([""] + segments)[1..] == segments;
    }
  }

  lemma PrefixNext(first: string, prefix: seq<string>, rest: seq<string>)
    requires first != "" && NonEmpty(prefix + rest) == prefix + NonEmpty(rest)
    ensures NonEmpty([first] + prefix + rest) == [first] + prefix + NonEmpty(rest)
  {
    NonEmptyNext(first, prefix + rest);
    assert [first] + prefix + rest == [first] + (prefix + rest);
  }

  lemma {:induction false} PrefixNonEmpty(prefix: seq<string>, rest: seq<string>)
    requires forall i :: 0 <= i < |prefix| ==> prefix[i] != ""
    ensures NonEmpty(prefix + rest) == prefix + NonEmpty(rest)
  {
    if prefix == [] {
      assert prefix + rest == rest;
    } else {
      PrefixNonEmpty(prefix[1..], rest);
      PrefixNext(prefix[0], prefix[1..], rest);
      assert prefix == [prefix[0]] + prefix[1..];
    }
  }

  /** The first segment that is not empty is this one. */
  predicate BeginsWith(segments: seq<string>, word: string) {
    NonEmpty(segments) != [] && NonEmpty(segments)[0] == word
  }

  /** What may stand before the words: it is left out, where the words themselves cannot be taken for it. */
  predicate IsPrefix(prefix: seq<string>, domain: string, rest: seq<string>) {
    || prefix == ["open-apis", domain]
    || (prefix == ["open-apis"] && !BeginsWith(rest, domain))
    || (prefix == [domain] && domain != "open-apis")
    || (prefix == [] && !BeginsWith(rest, "open-apis") && !BeginsWith(rest, domain))
  }

  lemma PrefixDropped(prefix: seq<string>, domain: string, rest: seq<string>)
    requires domain != "" && IsPrefix(prefix, domain, rest)
    ensures DropFirst(DropFirst(NonEmpty(prefix + rest), "open-apis"), domain) == NonEmpty(rest)
  {
    PrefixNonEmpty(prefix, rest);
    DropsPrefix(prefix, domain, rest, NonEmpty(rest));
  }

  lemma DropsPrefix(prefix: seq<string>, domain: string, rest: seq<string>, words: seq<string>)
    requires domain != "" && IsPrefix(prefix, domain, rest) && words == NonEmpty(rest)
    ensures DropFirst(DropFirst(prefix + words, "open-apis"), domain) == words
  {
    if prefix == ["open-apis", domain] {
      assert (prefix + words)[1..] == [domain] + words && ([domain] + words)[1..] == words;
    } else if prefix == [] {
      assert prefix + words == words;
    } else {
      assert (prefix + words)[1..] == words;
    }
  }

  /** The segments that count towards the name, for an endpoint with this path. */
  ghost predicate HasPath(e: Endpoint, rest: seq<string>) {
    exists prefix :: IsPrefix(prefix, e.domain, rest) && Slashless(prefix + rest) && e.path == PathOf(prefix + rest)
  }

  lemma PartsFor(e: Endpoint, rest: seq<string>)
    requires e.domain != "" && HasPath(e, rest)
    ensures var verb := PathParams.Snake(e.goMethod);
      NameParts(e) == [e.domain] + WithoutRepeat(Kept(rest), verb) + if verb != "" then [verb] else []
  {
    var prefix :| IsPrefix(prefix, e.domain, rest) && Slashless(prefix + rest) && e.path == PathOf(prefix + rest);
    SplitPath(prefix + rest);
    PrefixDropped(prefix, e.domain, rest);
    NonEmptyKept(rest);
  }

  // ---------- the name ----------

  lemma RepeatsExactly(words: seq<string>, verb: string)
    ensures WithoutRepeat(words, verb) == if Repeats(words, verb) then words[..|words| - 1] else words
  {
    if words != [] {
      var last, end := words[|words| - 1], "_" + verb;
      if EndsWith(last, end) {
        var front := last[..|last| - |end|];
        assert last == front + "_" + verb;
      }
      if exists front: string :: last == front + "_" + verb {
        var front: string :| last == front + "_" + verb;
        assert last == front + end && (front + end)[|front|..] == end;
      }
    }
  }

  lemma NameOf(e: Endpoint, words: seq<string>, verb: string)
    requires NameParts(e) == [e.domain] + WithoutRepeat(words, verb) + if verb != "" then [verb] else []
    ensures NameIs(BaseName(e), e.domain, words, verb)
  {
    RepeatsExactly(words, verb);
    if verb == "" {
      assert NameParts(e) == [e.domain] + words;
    }
  }

  /**
   The name of an endpoint is its domain, the segments of its path in snake case and in their order, and the
   verb, joined by underscores; the last word gives way to a verb that repeats it.
   */
  lemma NameFromPath(e: Endpoint, segments: seq<string>)
    requires e.domain != "" && e.given == "" && HasPath(e, segments) && NoneSkipped(segments)
    ensures NameIs(Base(e), e.domain, SnakeWords(segments), PathParams.Snake(e.goMethod))
  {
    PartsFor(e, segments);
    KeptAll(segments);
    NameOf(e, SnakeWords(segments), PathParams.Snake(e.goMethod));
  }

  /** Endpoints that differ in their paths alone. */
  predicate Alike(e: Endpoint, f: Endpoint) {
    e.domain == f.domain && e.goMethod == f.goMethod && e.given == f.given
  }

  /** A version, a parameter, or a segment without letters and digits may stand anywhere after the domain. */
  lemma SkippedAnywhere(e: Endpoint, f: Endpoint, before: seq<string>, segment: string, after: seq<string>)
    requires e.domain != "" && Alike(e, f) && Skipped(segment)
    requires HasPath(e, before + after) && HasPath(f, before + [segment] + after)
    ensures Base(e) == Base(f)
  {
    PartsFor(e, before + after);
    PartsFor(f, before + [segment] + after);
    SkippedKept(before, segment, after);
    assert NameParts(e) == NameParts(f);
  }

  /** Words and a verb in snake case stand in the name as they are. */
  lemma NameFromWords(e: Endpoint, words: seq<string>)
    requires e.domain != "" && e.given == "" && HasPath(e, words) && NoneSkipped(words)
    requires forall i :: 0 <= i < |words| ==> PathParams.IsSnake(words[i])
    requires e.goMethod == "" || PathParams.IsSnake(e.goMethod)
    ensures NameIs(Base(e), e.domain, words, e.goMethod)
  {
    NameFromPath(e, words);
    forall i | 0 <= i < |words| ensures SnakeWords(words)[i] == words[i] {
      PathParams.SnakeSame(words[i]);
    }
    assert SnakeWords(words) == words;
    if e.goMethod != "" {
      PathParams.SnakeSame(e.goMethod);
    } else {
      PathParams.SnakeBegins("");
    }
  }

  // ---------- the name that is kept ----------

  lemma {:induction false} FirstNames(endpoints: seq<Names.Endpoint>, picks: seq<nat>)
    requires |picks| == |endpoints| > 0
    ensures Names.EndpointNames(endpoints[0], picks[0]) <= Names.AllNames(endpoints, picks)
  {
    var last := |endpoints| - 1;
    if last > 0 {
      FirstNames(endpoints[..last], picks[..last]);
    } else {
      assert Names.AllNames(endpoints[..0], picks[..0]) == [];
    }
  }

  lemma FreeAtOnce(base: string, index: nat, suffixes: set<string>)
    requires Names.FirstFree(base, index, suffixes, Names.Members([]))
    ensures index == 0
  {
    assert index > 0 ==> Names.Blocked(Names.Candidates(base)(0), suffixes, Names.Members([]));
  }

  /** The first endpoint of a domain keeps its name: the one it is given, or else the one of its path. */
  lemma FirstKeepsItsName(d: Domain, names: seq<string>, suffix: string)
    requires NamesOf(d, names) && d.endpoints != []
    requires suffix in Names.Variants(d.endpoints[0].tokens)
    ensures var e := d.endpoints[0];
      (if e.given == "" then BaseName(e) else e.given) + suffix in names
  {
    var picks :| Names.Named(Entries(d), picks, names);
    var e := Entries(d)[0];
    assert Names.Picked(Entries(d), picks, 0);
    assert Names.AllNames([], []) == [] && Entries(d)[..0] == [] && picks[..0] == [];
    FreeAtOnce(e.base, picks[0], Names.SuffixSet(e));
    FirstNames(Entries(d), picks);
    var v := Names.Variants(e.tokens);
    var i :| 0 <= i < |v| && v[i] == suffix;
    assert Names.EndpointNames(e, 0)[i] == e.base + suffix;
    assert names[i] == e.base + suffix;
  }
}
