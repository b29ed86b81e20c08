/** Which parameters a path has, read off the text between its colons; and the local that a name in camel case gets. */
module PathMatches {
  import opened Identifiers
  import opened PathParams
  import opened SnakeCase
  import Names

  /** The letters, digits and underscores that a text begins with. */
  function Leading(s: string): string {
    if s != "" && IsPart(s[0]) then [s[0]] + Leading(s[1..]) else ""
  }

  /** What each of the texts begins with, where it is not empty. */
  function Leads(texts: seq<string>): seq<string> {
    if texts == [] then [] else (if Leading(texts[0]) == "" then [] else [Leading(texts[0])]) + Leads(texts[1..])
  }

  /** The names of the parameters: what follows each colon, as far as it is a name. */
  function AfterColons(s: string): seq<string> {
    Leads(SplitAll(s, ':')[1..])
  }

  lemma {:induction false} LeadingOfFirst(s: string)
    ensures Leading(SplitAll(s, ':')[0]) == Leading(s)
  {
    if s != "" && s[0] != ':' {
      LeadingOfFirst(s[1..]);
      assert SplitAll(s, ':')[0] == [s[0]] + SplitAll(s[1..], ':')[0];
    }
  }

  lemma AfterOther(c: char, s: string)
    requires c != ':'
    ensures AfterColons([c] + s) == AfterColons(s)
  {
    var parts := SplitAll(s, ':');
    assert ([c] + s)[1..] == s;
    assert ([[c] + parts[0]] + parts[1..])[1..] == parts[1..];
  }

  lemma AfterColon(s: string)
    ensures AfterColons(":" + s) == (if Leading(s) == "" then [] else [Leading(s)]) + AfterColons(s)
  {
    var parts := SplitAll(s, ':');
    assert (":" + s)[1..] == s;
    assert ([""] + parts)[1..] == parts;
    LeadingOfFirst(s);
  }

  lemma {:induction false} PartsAreLeading(path: string, i: nat)
    requires i <= |path|
    ensures path[i..PartsEnd(path, i)] == Leading(path[i..])
    decreases |path| - i
  {
    if i < |path| && IsPart(path[i]) {
      PartsAreLeading(path, i + 1);
      assert path[i..][1..] == path[i + 1..];
      assert path[i..PartsEnd(path, i)] == [path[i]] + path[i + 1..PartsEnd(path, i)];
    }
  }

  lemma NoMatchHere(path: string, from: nat)
    requires from < |path| && !(path[from] == ':' && from + 1 < |path| && IsPart(path[from + 1]))
    ensures MatchNames(path, from) == MatchNames(path, from + 1)
  {
    assert NextMatch(path, from) == NextMatch(path, from + 1);
  }

  lemma {:induction false} NoMatchInName(path: string, i: nat, end: nat)
    requires i <= end <= |path| && forall k :: i <= k < end ==> IsPart(path[k])
    ensures MatchNames(path, i) == MatchNames(path, end)
    decreases end - i
  {
    if i < end {
      NoMatchHere(path, i);
      NoMatchInName(path, i + 1, end);
    }
  }

  lemma {:induction false} MatchesFrom(path: string, from: nat)
    requires from <= |path|
    ensures MatchNames(path, from) == AfterColons(path[from..])
    decreases |path| - from
  {
    if from < |path| {
      var rest := path[from + 1..];
      MatchesFrom(path, from + 1);
      assert path[from..] == [path[from]] + rest;
      if path[from] != ':' {
        AfterOther(path[from], rest);
        NoMatchHere(path, from);
      } else {
        AfterColon(rest);
        PartsAreLeading(path, from + 1);
        if rest == "" || !IsPart(rest[0]) {
          NoMatchHere(path, from);
          assert [] + AfterColons(rest) == AfterColons(rest);
        } else {
          NoMatchInName(path, from + 1, PartsEnd(path, from + 1));
        }
      }
    }
  }

  /** The parameters of a path, in order: what follows each of its colons, as far as it is a name. */
  lemma MatchesExactly(path: string, params: Params, format: string)
    requires Parsed(path, params, format)
    ensures Originals(params) == AfterColons(path)
  {
    MatchesFrom(path, 0);
    assert path[0..] == path;
  }

  /** A parameter in camel case gets its words, joined by underscores, and a word in front if that is reserved. */
  lemma LocalOfCamel(words: seq<string>)
    requires AllWords(words)
    ensures var snake := Join(words, "_");
      SanitizeParam(Camel(words)) == if IsReserved(snake) then "path_" + snake else snake
  {
    CamelSplits(words);
    assert Join(words, "_") != "";
  }

  /** A name of underscores alone gets the word twice. */
  lemma LocalOfUnderscores(name: string)
    requires forall i :: 0 <= i < |name| ==> name[i] == '_'
    ensures SanitizeParam(name) == "path_path"
  {
    NoAlnum(name);
    SnakeBegins(name);
    assert "path_" + "path" == "path_path";
  }

  lemma {:induction false} NoAlnum(name: string)
    requires forall i :: 0 <= i < |name| ==> name[i] == '_'
    ensures FirstAlnum(name).None?
  {
    if name != "" {
      NoAlnum(name[1..]);
    }
  }

  /** After the local itself come the local with 2, 3, 4, ... */
  lemma LocalCandidateExactly(base: string, k: nat, text: string)
    ensures text == LocalCandidate(base, k)
       <==> if k == 0 then text == base
            else exists digits :: text == base + "_" + digits && Names.Writes(digits, k + 1)
  {
    Names.DecimalWrites(k + 1);
    if k > 0 && exists digits :: text == base + "_" + digits && Names.Writes(digits, k + 1) {
      var digits :| text == base + "_" + digits && Names.Writes(digits, k + 1);
      Names.OneWriting(digits, k + 1);
    }
  }
}
