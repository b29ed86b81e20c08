/** Parameters in a path: `:name` turned into `{local}`, with a different local for each. */
module PathParams {
  import opened Wrappers
  import opened Text
  import opened Identifiers
  import opened Sorting
  import Names
  import Numerals
  import Sequences

  // ---------- from a parameter to a local ----------

  /** An underscore before each capital that is not at the start. */
  function BreakCapitals(s: string, atStart: bool): string {
    if s == "" then ""
    else (if 'A' <= s[0] <= 'Z' && !atStart then "_" + [s[0]] else [s[0]]) + BreakCapitals(s[1..], false)
  }

  function OnlyParts(s: string): string {
    seq(|s|, i requires 0 <= i < |s| => if IsPart(s[i]) then s[i] else '_')
  }

  /** Each run of underscores made one underscore. */
  function Squeeze(s: string): string {
    if s == "" then ""
    else if |s| > 1 && s[0] == '_' && s[1] == '_' then Squeeze(s[1..])
    else [s[0]] + Squeeze(s[1..])
  }

  function StripStart(s: string): string {
    if s != "" && s[0] == '_' then StripStart(s[1..]) else s
  }

  function StripEnd(s: string): string {
    if s != "" && s[|s| - 1] == '_' then StripEnd(s[..|s| - 1]) else s
  }

  function Snake(s: string): string {
    Lower(StripEnd(StripStart(Squeeze(OnlyParts(BreakCapitals(s, true))))))
  }

  /** The words of the language, as the table of keywords lists them. */
  predicate IsKeyword(word: string) {
    word in {
      "as", "break", "const", "continue", "crate", "else", "enum", "extern",
      "false", "fn", "for", "if", "impl", "in", "let", "loop", "match", "mod",
      "move", "mut", "pub", "ref", "return", "self", "Self", "static", "struct",
      "super", "trait", "true", "type", "unsafe", "use", "where", "while", "async",
      "await", "dyn", "abstract", "become", "box", "do", "final", "macro",
      "override", "priv", "typeof", "unsized", "virtual", "yield", "try" }
  }

  /** The names that the table of reserved arguments lists; a method may have others. */
  predicate IsReservedArg(word: string) {
    word in {
      "self", "query", "body", "url", "path", "method", "request", "response",
      "result", "core", "token", "value", "name", "type", "match", "move",
      "ref", "box", "async", "await", "dyn", "fn", "let" }
  }

  predicate IsReserved(word: string) {
    IsKeyword(word) || IsReservedArg(word)
  }

  function SanitizeParam(name: string): string {
    var snake := Snake(name);
    var value := if snake == "" then "path" else snake;
    if IsReserved(value) then "path_" + value else value
  }

  /** Lower-case letters, digits and underscores. */
  predicate IsLocal(s: string) {
    s != "" && forall c :: c in s ==> 'a' <= c <= 'z' || '0' <= c <= '9' || c == '_'
  }

  predicate AllParts(s: string) {
    forall c :: c in s ==> IsPart(c)
  }

  lemma {:induction false} SqueezeKeeps(s: string)
    requires AllParts(s)
    ensures AllParts(Squeeze(s))
  {
    if s != "" {
      assert forall c :: c in s[1..] ==> c in s;
      SqueezeKeeps(s[1..]);
    }
  }

  lemma {:induction false} StripKeeps(s: string)
    requires AllParts(s)
    ensures AllParts(StripStart(s)) && AllParts(StripEnd(s))
    decreases |s|
  {
    if s != "" {
      assert forall c :: c in s[1..] ==> c in s;
      assert forall c :: c in s[..|s| - 1] ==> c in s;
      StripKeeps(s[1..]);
      StripKeeps(s[..|s| - 1]);
    }
  }

  lemma SnakeIsLocal(name: string)
    requires Snake(name) != ""
    ensures IsLocal(Snake(name))
  {
    var parts := OnlyParts(BreakCapitals(name, true));
    assert AllParts(parts);
    SqueezeKeeps(parts);
    StripKeeps(Squeeze(parts));
    StripKeeps(StripStart(Squeeze(parts)));
    var kept := StripEnd(StripStart(Squeeze(parts)));
    forall c | c in Lower(kept) ensures 'a' <= c <= 'z' || '0' <= c <= '9' || c == '_' {
      var i :| 0 <= i < |kept| && Lower(kept)[i] == c;
      assert kept[i] in kept && IsPart(kept[i]);
    }
  }

  /** A sanitised name can stand between braces. */
  lemma SanitizedIsLocal(name: string)
    ensures IsLocal(SanitizeParam(name))
  {
    if Snake(name) != "" {
      SnakeIsLocal(name);
    }
  }

  // ---------- what the snake form looks like ----------

  /** No two underscores side by side. */
  predicate NoDouble(s: string) {
    forall i :: 0 <= i < |s| - 1 ==> !(s[i] == '_' && s[i + 1] == '_')
  }

  /** Lower-case words of letters and digits, joined by single underscores. */
  predicate IsSnake(s: string) {
    IsLocal(s) && NoDouble(s) && s[0] != '_' && s[|s| - 1] != '_'
  }

  lemma {:induction false} SqueezeSeparates(s: string)
    ensures NoDouble(Squeeze(s)) && (s == "" <==> Squeeze(s) == "")
    ensures s != "" ==> Squeeze(s)[0] == s[0]
  {
    if s != "" {
      SqueezeSeparates(s[1..]);
    }
  }

  lemma {:induction false} StripStartEnds(s: string)
    ensures |StripStart(s)| <= |s| && StripStart(s) == s[|s| - |StripStart(s)|..]
    ensures NoDouble(s) ==> NoDouble(StripStart(s))
    ensures StripStart(s) != "" ==> StripStart(s)[0] != '_'
  {
    if s != "" && s[0] == '_' {
      StripStartEnds(s[1..]);
      assert NoDouble(s) ==> NoDouble(s[1..]) by {
        assert forall i :: 0 <= i < |s| - 1 ==> s[1..][i] == s[i + 1];
      }
    }
  }

  lemma {:induction false} StripEndBegins(s: string)
    ensures StripEnd(s) <= s
    ensures StripEnd(s) != "" ==> StripEnd(s)[|StripEnd(s)| - 1] != '_'
  {
    if s != "" && s[|s| - 1] == '_' {
      StripEndBegins(s[..|s| - 1]);
    }
  }

  /** A snake form is empty or in snake case. */
  lemma SnakeIsSnake(name: string)
    ensures Snake(name) == "" || IsSnake(Snake(name))
  {
    var squeezed := Squeeze(OnlyParts(BreakCapitals(name, true)));
    var begun := StripStart(squeezed);
    var kept := StripEnd(begun);
    SqueezeSeparates(OnlyParts(BreakCapitals(name, true)));
    StripStartEnds(squeezed);
    StripEndBegins(begun);
    if kept != "" {
      SnakeIsLocal(name);
      assert kept[0] == begun[0];
      LowerSeparates(kept);
    }
  }

  /** Lower case leaves the underscores where they are. */
  lemma LowerSeparates(s: string)
    requires s != "" && NoDouble(s) && s[0] != '_' && s[|s| - 1] != '_'
    ensures NoDouble(Lower(s)) && Lower(s)[0] != '_' && Lower(s)[|s| - 1] != '_'
  {
    forall i | 0 <= i < |s| ensures Lower(s)[i] == '_' <==> s[i] == '_' {
    }
  }

  lemma {:induction false} NoCapitals(s: string, atStart: bool)
    requires forall i :: 0 <= i < |s| ==> !('A' <= s[i] <= 'Z')
    ensures BreakCapitals(s, atStart) == s
  {
    if s != "" {
      NoCapitals(s[1..], false);
    }
  }

  lemma {:induction false} SqueezeSame(s: string)
    requires NoDouble(s)
    ensures Squeeze(s) == s
  {
    if s != "" {
      assert forall i :: 0 <= i < |s| - 1 ==> s[1..][i] == s[i + 1];
      SqueezeSame(s[1..]);
    }
  }

  /** Snake case is left as it is. */
  lemma SnakeSame(s: string)
    requires IsSnake(s)
    ensures Snake(s) == s
  {
    PartsSame(s);
    NoCapitals(s, true);
    SqueezeSame(s);
    assert StripStart(s) == s && StripEnd(s) == s;
  }

  lemma PartsSame(s: string)
    requires IsLocal(s)
    ensures OnlyParts(s) == s && Lower(s) == s && forall i :: 0 <= i < |s| ==> !('A' <= s[i] <= 'Z')
  {
    assert forall i :: 0 <= i < |s| ==> s[i] in s;
  }

  // ---------- reserved words ----------

  /** An identifier of Rust: a lone underscore and the words of the language are not. */
  predicate IsLegal(s: string) {
    IsIdentifier(s) && s != "_" && !IsKeyword(s)
  }

  /** The words of both tables begin with a letter and have no underscore. */
  lemma WordBegins(word: string)
    requires IsReserved(word)
    ensures word != "" && IsStart(word[0])
  {
  }

  lemma KeywordIsOneWord(word: string)
    requires IsKeyword(word)
    ensures '_' !in word
  {
  }

  lemma ReservedArgIsOneWord(word: string)
    requires IsReservedArg(word)
    ensures '_' !in word
  {
  }

  lemma TwoWordsUnreserved(word: string)
    requires '_' in word
    ensures !IsReserved(word)
  {
    if IsKeyword(word) {
      KeywordIsOneWord(word);
    } else if IsReservedArg(word) {
      ReservedArgIsOneWord(word);
    }
  }

  predicate IsAlnum(c: char) {
    IsPart(c) && c != '_'
  }

  /** The first letter or digit. */
  function FirstAlnum(s: string): Option<char> {
    if s == "" then None else if IsAlnum(s[0]) then Some(s[0]) else FirstAlnum(s[1..])
  }

  lemma {:induction false} FirstAfterBreaks(s: string, atStart: bool)
    ensures FirstAlnum(BreakCapitals(s, atStart)) == FirstAlnum(s)
  {
    if s != "" {
      FirstAfterBreaks(s[1..], false);
      var t := BreakCapitals(s, atStart);
      if 'A' <= s[0] <= 'Z' && !atStart {
        assert t[1..][0] == s[0] && t[1..][1..] == BreakCapitals(s[1..], false);
      } else {
        assert t[1..] == BreakCapitals(s[1..], false);
      }
    }
  }

  lemma {:induction false} FirstAfterParts(s: string)
    ensures FirstAlnum(OnlyParts(s)) == FirstAlnum(s)
  {
    if s != "" {
      assert OnlyParts(s)[1..] == OnlyParts(s[1..]);
      FirstAfterParts(s[1..]);
    }
  }

  lemma {:induction false} FirstAfterSqueeze(s: string)
    ensures FirstAlnum(Squeeze(s)) == FirstAlnum(s)
  {
    if s != "" {
      FirstAfterSqueeze(s[1..]);
      assert ([s[0]] + Squeeze(s[1..]))[1..] == Squeeze(s[1..]);
    }
  }

  lemma {:induction false} FirstAfterStrip(s: string)
    requires AllParts(s)
    ensures var t := StripStart(s);
      if t == "" then FirstAlnum(s) == None else IsAlnum(t[0]) && FirstAlnum(s) == Some(t[0])
  {
    if s != "" {
      assert s[0] in s && forall c :: c in s[1..] ==> c in s;
      FirstAfterStrip(s[1..]);
    }
  }

  lemma {:induction false} StripEndKeepsFirst(s: string)
    requires s != "" && s[0] != '_'
    ensures StripEnd(s) != "" && StripEnd(s)[0] == s[0]
  {
    if s[|s| - 1] == '_' {
      StripEndKeepsFirst(s[..|s| - 1]);
    }
  }

  /** The snake form begins with the first letter or digit of the name, in lower case. */
  lemma SnakeBegins(name: string)
    ensures if FirstAlnum(name) == None then Snake(name) == ""
            else Snake(name) != "" && Snake(name)[0] == LowerChar(FirstAlnum(name).value)
    ensures FirstAlnum(name).Some? ==> IsAlnum(FirstAlnum(name).value)
  {
    var broken := BreakCapitals(name, true);
    var squeezed := Squeeze(OnlyParts(broken));
    FirstAfterBreaks(name, true);
    FirstAfterParts(broken);
    FirstAfterSqueeze(OnlyParts(broken));
    SqueezeKeeps(OnlyParts(broken));
    FirstAfterStrip(squeezed);
    if StripStart(squeezed) != "" {
      StripEndKeepsFirst(StripStart(squeezed));
    }
  }

  predicate DigitFirst(name: string) {
    FirstAlnum(name).Some? && '0' <= FirstAlnum(name).value <= '9'
  }

  /** A sanitised name is in neither table, and begins with a digit exactly if the name does, underscores aside. */
  lemma SanitizedIsUnreserved(name: string)
    ensures !IsReserved(SanitizeParam(name))
    ensures IsStart(SanitizeParam(name)[0]) <==> !DigitFirst(name)
    ensures SanitizeParam(name)[0] != '_'
  {
    SnakeBegins(name);
    var snake := Snake(name);
    var value := if snake == "" then "path" else snake;
    if IsReserved(value) {
      WordBegins(value);
      TwoWordsUnreserved("path_" + value);
    }
  }

  // ---------- the parameters of a path ----------

  function PartsEnd(path: string, i: nat): (end: nat)
    requires i <= |path|
    ensures i <= end <= |path|
    ensures forall k :: i <= k < end ==> IsPart(path[k])
    ensures end == |path| || !IsPart(path[end])
    decreases |path| - i
  {
    if i < |path| && IsPart(path[i]) then PartsEnd(path, i + 1) else i
  }

  /** The next match of `:([A-Za-z0-9_]+)`: its colon and its end. */
  function NextMatch(path: string, from: nat): (r: Option<(nat, nat)>)
    requires from <= |path|
    ensures r.Some? ==> from <= r.value.0 && r.value.0 + 1 < r.value.1 <= |path| && path[r.value.0] == ':'
    decreases |path| - from
  {
    if from + 1 >= |path| then None
    else if path[from] == ':' && IsPart(path[from + 1]) then Some((from, PartsEnd(path, from + 1)))
    else NextMatch(path, from + 1)
  }

  /** The names of all matches from a position on. */
  function MatchNames(path: string, from: nat): seq<string>
    requires from <= |path|
    decreases |path| - from
  {
    match NextMatch(path, from)
    case None => []
    case Some((start, end)) => [path[start + 1..end]] + MatchNames(path, end)
  }

  type Params = seq<(string, string)>

  function Originals(params: Params): seq<string> {
    seq(|params|, i requires 0 <= i < |params| => params[i].1)
  }

  ghost predicate LocalsDistinct(params: Params) {
    forall i, j :: 0 <= i < j < |params| ==> params[i].0 != params[j].0
  }

  predicate AllLocal(params: Params) {
    forall i :: 0 <= i < |params| ==> IsLocal(params[i].0)
  }

  /** The text between the parameters, with the parameters as they were. */
  function Plain(between: seq<string>, params: Params): string
    requires |between| == |params|
  {
    if params == [] then ""
    else
      var last := |params| - 1;
      Plain(between[..last], params[..last]) + between[last] + ":" + params[last].1
  }

  /** The same, with the locals in braces. */
  function Braced(between: seq<string>, params: Params): string
    requires |between| == |params|
  {
    if params == [] then ""
    else
      var last := |params| - 1;
      Braced(between[..last], params[..last]) + between[last] + "{" + params[last].0 + "}"
  }

  ghost predicate Woven(path: string, params: Params, format: string, between: seq<string>, tail: string) {
    |between| == |params| && path == Plain(between, params) + tail && format == Braced(between, params) + tail
  }

  /** The base, then the base with 2, 3, 4, ... */
  function LocalCandidate(base: string, k: nat): string {
    if k == 0 then base else Names.Candidate(base, k + 1)
  }

  function LocalCandidates(base: string): Names.Series {
    (k: nat) => LocalCandidate(base, k)
  }

  lemma LocalCandidatesInjective(base: string)
    ensures Names.Injective(LocalCandidates(base))
  {
    forall i: nat, j: nat | LocalCandidates(base)(i) == LocalCandidates(base)(j) ensures i == j {
      var m, n := if i == 0 then 0 else i + 1, if j == 0 then 0 else j + 1;
      assert Names.Candidate(base, m) == LocalCandidate(base, i) && Names.Candidate(base, n) == LocalCandidate(base, j);
      Names.CandidatesDiffer(base, m, n);
    }
  }

  lemma TakenIsBlocked(local: string, used: set<string>)
    ensures local in used <==> Names.Blocked(local, {""}, used)
  {
    assert local + "" == local;
    assert "" in {""};
  }

  lemma CandidateIsLocal(base: string, k: nat)
    requires IsLocal(base)
    ensures IsLocal(LocalCandidate(base, k))
  {
    Numerals.DecimalReadsBack(k + 1);
  }

  /** The k-th candidate, when it is the first that is not in use. */
  ghost predicate FirstUnused(base: string, k: nat, used: set<string>, local: string) {
    && k <= |used| && local == LocalCandidate(base, k) && local !in used
    && forall j: nat :: j < k ==> LocalCandidates(base)(j) in used
  }

  /** The first candidate not in use; the search passes at most as many candidates as there are names in use. */
  method FindLocal(base: string, used: set<string>) returns (local: string)
    requires IsLocal(base)
    ensures local !in used && IsLocal(local)
    ensures exists k: nat :: FirstUnused(base, k, used, local)
  {
    LocalCandidatesInjective(base);
    local := base;
    var index := 1;
    ghost var k: nat := 0;
    while local in used
      invariant index == k + 1 && local == LocalCandidate(base, k)
      invariant forall j: nat :: j < k ==> LocalCandidates(base)(j) in used
      decreases |used| - k
    {
      assert LocalCandidates(base)(k) in used;
      LocalBound(base, used, k + 1);
      index := index + 1;
      local := Names.Candidate(base, index);
      k := k + 1;
    }
    LocalBound(base, used, k);
    CandidateIsLocal(base, k);
    assert FirstUnused(base, k, used, local);
  }

  lemma LocalBound(base: string, used: set<string>, k: nat)
    requires forall j: nat :: j < k ==> LocalCandidates(base)(j) in used
    ensures k <= |used|
  {
    LocalCandidatesInjective(base);
    forall j: nat | j < k ensures Names.Blocked(LocalCandidates(base)(j), {""}, used) {
      TakenIsBlocked(LocalCandidates(base)(j), used);
    }
    Names.SearchBound(LocalCandidates(base), {""}, used, k);
  }

  function Locals(params: Params): set<string> {
    set p | p in params :: p.0
  }

  /** The i-th local is the first candidate for its name that no earlier parameter has. */
  ghost predicate NamedInTurn(params: Params, i: nat)
    requires i < |params|
  {
    exists k: nat :: FirstUnused(SanitizeParam(params[i].1), k, Locals(params[..i]), params[i].0)
  }

  ghost predicate AllNamedInTurn(params: Params) {
    && LocalsDistinct(params) && AllLocal(params)
    && forall i :: 0 <= i < |params| ==> NamedInTurn(params, i)
  }

  /** What a parse promises. */
  ghost predicate Parsed(path: string, params: Params, format: string) {
    && Originals(params) == MatchNames(path, 0) && AllNamedInTurn(params)
    && exists between, tail :: Woven(path, params, format, between, tail)
  }

  /** The parameters so far and the matches to come are all the matches. */
  predicate NamesUpTo(path: string, last: nat, params: Params)
    requires last <= |path|
  {
    Originals(params) + MatchNames(path, last) == MatchNames(path, 0)
  }

  method ParsePath(path: string) returns (params: Params, format: string)
    ensures Parsed(path, params, format)
    ensures BraceFree(path) ==> Restore(format, params) == path
  {
    params, format := [], "";
    var used: set<string> := {};
    var last := 0;
    ghost var between: seq<string> := [];
    var next := NextMatch(path, 0);
    while next.Some?
      invariant last <= |path| && next == NextMatch(path, last)
      invariant NamesUpTo(path, last, params)
      invariant AllNamedInTurn(params) && used == Locals(params)
      invariant Woven(path[..last], params, format, between, "")
      decreases |path| - last
    {
      var (start, end) := next.value;
      var name := path[start + 1..end];
      SanitizedIsLocal(name);
      var local := FindLocal(SanitizeParam(name), used);
      NextName(path, last, start, end, params, local);
      NextInTurn(params, local, name);
      NextWoven(path, last, start, end, params, format, between, local);
      used := used + {local};
      params := params + [(local, name)];
      between := between + [path[last..start]];
      format := format + path[last..start] + "{" + local + "}";
      last := end;
      next := NextMatch(path, last);
    }
    ParseEnd(path, last, params, format, between);
    format := format + path[last..];
  }

  lemma ParseEnd(path: string, last: nat, params: Params, format: string, between: seq<string>)
    requires last <= |path| && NextMatch(path, last) == None && NamesUpTo(path, last, params)
    requires AllNamedInTurn(params) && Woven(path[..last], params, format, between, "")
    ensures Parsed(path, params, format + path[last..])
    ensures BraceFree(path) ==> Restore(format + path[last..], params) == path
  {
    LastWoven(path, last, params, format, between);
    assert Originals(params) + [] == Originals(params);
    if BraceFree(path) {
      Restores(path, params, format + path[last..], between, path[last..]);
    }
  }

  lemma NextName(path: string, last: nat, start: nat, end: nat, params: Params, local: string)
    requires last <= |path| && NextMatch(path, last) == Some((start, end)) && NamesUpTo(path, last, params)
    ensures NamesUpTo(path, end, params + [(local, path[start + 1..end])])
  {
    var name := path[start + 1..end];
    assert Originals(params + [(local, name)]) == Originals(params) + [name];
  }

  lemma NextInTurn(params: Params, local: string, name: string)
    requires AllNamedInTurn(params) && IsLocal(local) && local !in Locals(params)
    requires exists k: nat :: FirstUnused(SanitizeParam(name), k, Locals(params), local)
    ensures AllNamedInTurn(params + [(local, name)])
    ensures Locals(params + [(local, name)]) == Locals(params) + {local}
  {
    forall i | 0 <= i <= |params| ensures NamedInTurn(params + [(local, name)], i) {
      StillInTurn(params, local, name, i);
    }
  }

  lemma StillInTurn(params: Params, local: string, name: string, i: nat)
    requires i <= |params| && (i < |params| ==> NamedInTurn(params, i))
    requires exists k: nat :: FirstUnused(SanitizeParam(name), k, Locals(params), local)
    ensures NamedInTurn(params + [(local, name)], i)
  {
    var more := params + [(local, name)];
    if i < |params| {
      assert more[..i] == params[..i] && more[i] == params[i];
    } else {
      assert more[..i] == params && more[i] == (local, name);
    }
  }

  lemma NextWoven(path: string, last: nat, start: nat, end: nat, params: Params, format: string,
                  between: seq<string>, local: string)
    requires last <= start && start + 1 < end <= |path| && path[start] == ':'
    requires Woven(path[..last], params, format, between, "")
    ensures Woven(path[..end], params + [(local, path[start + 1..end])], format + path[last..start] + "{" + local + "}",
                  between + [path[last..start]], "")
  {
    var more, lits := params + [(local, path[start + 1..end])], between + [path[last..start]];
    assert more[..|params|] == params && lits[..|params|] == between;
    assert path[..last] == Plain(between, params) && format == Braced(between, params);
    assert path[..end] == path[..last] + path[last..start] + ":" + path[start + 1..end];
  }

  lemma LastWoven(path: string, last: nat, params: Params, format: string, between: seq<string>)
    requires last <= |path| && Woven(path[..last], params, format, between, "")
    ensures Woven(path, params, format + path[last..], between, path[last..])
  {
    assert path == path[..last] + path[last..];
    assert Plain(between, params) + "" == Plain(between, params);
  }

  /** Every local of a path is unreserved, and it is an identifier exactly if its name does not begin with a digit. */
  lemma LocalsAreLegal(path: string, params: Params, format: string, i: nat)
    requires Parsed(path, params, format) && i < |params|
    ensures !IsReserved(params[i].0)
    ensures IsLegal(params[i].0) <==> !DigitFirst(params[i].1)
  {
    assert NamedInTurn(params, i);
    var base := SanitizeParam(params[i].1);
    var k: nat :| FirstUnused(base, k, Locals(params[..i]), params[i].0);
    SanitizedIsLocal(params[i].1);
    SanitizedIsUnreserved(params[i].1);
    CandidateIsLegal(base, k);
  }

  lemma CandidateIsLegal(base: string, k: nat)
    requires IsLocal(base) && base[0] != '_' && !IsReserved(base)
    ensures !IsReserved(LocalCandidate(base, k))
    ensures IsLegal(LocalCandidate(base, k)) <==> IsStart(base[0])
  {
    var local := LocalCandidate(base, k);
    CandidateIsLocal(base, k);
    if k > 0 {
      assert local[|base|] == '_';
      TwoWordsUnreserved(local);
    }
    assert local[0] == base[0];
    forall i | 0 <= i < |local| ensures IsPart(local[i]) {
      assert local[i] in local;
    }
  }

  /** The parameter of `/x/:1` becomes a local that is not an identifier. */
  lemma DigitLocal()
    ensures SanitizeParam("1") == "1" && !IsLegal(SanitizeParam("1"))
  {
    assert Snake("1") == "1" by {
      assert BreakCapitals("1", true) == "1";
      assert OnlyParts("1") == "1";
      assert "1"[1..] == "";
    }
    if IsReserved("1") {
      WordBegins("1");
    }
  }

  // ---------- the arguments of a generated method ----------

  datatype Identity = Tenant | User | App | Public

  /** The token that a method takes, if any. */
  function TokenArgs(identity: Identity): seq<string> {
    match identity
    case User => ["bearer_token"]
    case App => ["app_access_token"]
    case _ => []
  }

  function BodyArgs(multipart: bool, hasBody: bool): seq<string> {
    ["query"] + if multipart then ["content_type", "body"] else if hasBody then ["body"] else []
  }

  function LocalNames(params: Params): seq<string> {
    seq(|params|, i requires 0 <= i < |params| => params[i].0)
  }

  /** The arguments after `self`, in order. */
  function Arguments(identity: Identity, params: Params, multipart: bool, hasBody: bool): seq<string> {
    TokenArgs(identity) + LocalNames(params) + BodyArgs(multipart, hasBody)
  }

  /** The arguments that the table of reserved words does not protect. */
  function UnlistedArgs(identity: Identity, multipart: bool): seq<string> {
    TokenArgs(identity) + if multipart then ["content_type"] else []
  }

  lemma JoinDistinct<T>(a: seq<T>, l: seq<T>, b: seq<T>)
    requires NoDuplicates(a + b) && NoDuplicates(l)
    ensures NoDuplicates(a + l + b) <==> forall x :: x in l ==> x !in a + b
  {
    var all, fixed := a + l + b, a + b;
    var m, n := |a|, |a| + |l|;
    forall i | 0 <= i < |all|
      ensures all[i] == if m <= i < n then l[i - m] else fixed[if i < m then i else i - |l|]
    {
    }
    if x :| x in l && x in fixed {
      var i :| 0 <= i < |l| && l[i] == x;
      var j :| 0 <= j < |fixed| && fixed[j] == x;
      assert all[m + i] == all[if j < m then j else |l| + j];
    } else {
      forall i, j | 0 <= i < j < |all| ensures all[i] != all[j] {
        if m <= i < n {
          assert l[i - m] in l && l[i - m] !in fixed;
        } else if m <= j < n {
          assert l[j - m] in l && l[j - m] !in fixed;
        }
      }
    }
  }

  lemma FixedArgsDistinct(identity: Identity, multipart: bool, hasBody: bool)
    ensures NoDuplicates(TokenArgs(identity) + BodyArgs(multipart, hasBody))
  {
    assert |"bearer_token"| == 12 && |"app_access_token"| == 16 && |"query"| == 5;
    assert |"content_type"| == 12 && |"body"| == 4 && "bearer_token"[0] != "content_type"[0];
  }

  lemma WordTaken(path: string, params: Params, format: string, i: nat)
    requires Parsed(path, params, format) && i < |params|
    ensures SanitizeParam(params[i].1) in LocalNames(params)
  {
    var word := SanitizeParam(params[i].1);
    assert NamedInTurn(params, i);
    var k: nat :| FirstUnused(word, k, Locals(params[..i]), params[i].0);
    if k == 0 {
      assert LocalNames(params)[i] == word;
    } else {
      assert LocalCandidates(word)(0) in Locals(params[..i]);
      var j :| 0 <= j < i && params[..i][j].0 == word;
      assert LocalNames(params)[j] == word;
    }
  }

  lemma LocalWithoutNumber(path: string, params: Params, format: string, i: nat)
    requires Parsed(path, params, format) && i < |params|
    requires params[i].0 == "" || !Numerals.IsDigit(params[i].0[|params[i].0| - 1])
    ensures SanitizeParam(params[i].1) == params[i].0
  {
    assert NamedInTurn(params, i);
    var k: nat :| FirstUnused(SanitizeParam(params[i].1), k, Locals(params[..i]), params[i].0);
    NumberedEndsInDigit(SanitizeParam(params[i].1), k);
  }

  /** Some local is this word exactly if some parameter becomes it; numbered locals never do. */
  lemma LocalIsWord(path: string, params: Params, format: string, word: string)
    requires Parsed(path, params, format) && word != "" && !Numerals.IsDigit(word[|word| - 1])
    ensures word in LocalNames(params) <==> exists i :: 0 <= i < |params| && SanitizeParam(params[i].1) == word
  {
    if word in LocalNames(params) {
      var i :| 0 <= i < |params| && LocalNames(params)[i] == word;
      LocalWithoutNumber(path, params, format, i);
    }
    if i :| 0 <= i < |params| && SanitizeParam(params[i].1) == word {
      WordTaken(path, params, format, i);
    }
  }

  lemma NumberedEndsInDigit(base: string, k: nat)
    ensures var local := LocalCandidate(base, k);
      k > 0 ==> local != "" && Numerals.IsDigit(local[|local| - 1])
  {
    var digits := Numerals.Decimal(k + 1);
    Numerals.DecimalReadsBack(k + 1);
    assert Numerals.IsDigit(digits[|digits| - 1]);
  }

  lemma ListedArgs()
    ensures IsReserved("query") && IsReserved("body")
  {
  }

  lemma BearerWord()
    ensures IsSnake("bearer_token") && '_' in "bearer_token"
  {
    assert "bearer_token"[6] == '_';
  }

  lemma AppWord()
    ensures IsSnake("app_access_token") && '_' in "app_access_token"
  {
    assert "app_access_token"[3] == '_';
  }

  lemma ContentTypeWord()
    ensures IsSnake("content_type") && '_' in "content_type"
  {
    assert "content_type"[7] == '_';
  }

  lemma UnlistedWords(word: string, identity: Identity, multipart: bool)
    requires word in UnlistedArgs(identity, multipart)
    ensures IsSnake(word) && '_' in word && !Numerals.IsDigit(word[|word| - 1])
  {
    BearerWord();
    AppWord();
    ContentTypeWord();
  }

  /** The arguments differ exactly if no local is one that the tables miss. */
  lemma ListedArgsAreSafe(path: string, params: Params, format: string, identity: Identity,
                          multipart: bool, hasBody: bool)
    requires Parsed(path, params, format)
    ensures NoDuplicates(Arguments(identity, params, multipart, hasBody))
      <==> forall w :: w in UnlistedArgs(identity, multipart) ==> w !in LocalNames(params)
  {
    var locals := LocalNames(params);
    FixedArgsDistinct(identity, multipart, hasBody);
    JoinDistinct(TokenArgs(identity), locals, BodyArgs(multipart, hasBody));
    forall x | x in locals ensures x != "query" && x != "body" {
      var i :| 0 <= i < |params| && locals[i] == x;
      LocalsAreLegal(path, params, format, i);
      ListedArgs();
    }
    FixedOrListed(identity, multipart, hasBody);
  }

  lemma FixedOrListed(identity: Identity, multipart: bool, hasBody: bool)
    ensures forall x :: x != "query" && x != "body" ==>
      (x in TokenArgs(identity) + BodyArgs(multipart, hasBody) <==> x in UnlistedArgs(identity, multipart))
  {
  }

  /** They differ exactly if no parameter of the path becomes one of those. */
  lemma ArgumentsDistinct(path: string, params: Params, format: string, identity: Identity,
                          multipart: bool, hasBody: bool)
    requires Parsed(path, params, format)
    ensures NoDuplicates(Arguments(identity, params, multipart, hasBody))
      <==> forall i :: 0 <= i < |params| ==> SanitizeParam(params[i].1) !in UnlistedArgs(identity, multipart)
  {
    ListedArgsAreSafe(path, params, format, identity, multipart, hasBody);
    forall w | w in UnlistedArgs(identity, multipart)
      ensures w in LocalNames(params) <==> exists i :: 0 <= i < |params| && SanitizeParam(params[i].1) == w
    {
      UnlistedWords(w, identity, multipart);
      LocalIsWord(path, params, format, w);
    }
  }

  /** A path that ends in its only parameter, when that is in snake case. */
  lemma OnlyParameter(front: string, word: string, params: Params, format: string)
    requires ':' !in front && IsSnake(word) && Parsed(front + ":" + word, params, format)
    ensures |params| == 1 && params[0].1 == word
  {
    var path := front + ":" + word;
    assert forall i :: 0 <= i < |word| ==> word[i] in word;
    assert path[|front|] == ':' && path[..|front|] == front && path[|front| + 1..] == word;
    OneMatch(path, |front|, word);
    assert Originals(params)[0] == params[0].1;
  }

  /** If that parameter is an argument that the tables miss, the method has two arguments of one name. */
  lemma ArgumentTwice(front: string, word: string, params: Params, format: string, identity: Identity,
                      multipart: bool, hasBody: bool)
    requires ':' !in front && Parsed(front + ":" + word, params, format) && word in UnlistedArgs(identity, multipart)
    ensures !NoDuplicates(Arguments(identity, params, multipart, hasBody))
  {
    UnlistedWords(word, identity, multipart);
    OnlyParameter(front, word, params, format);
    WordStays(word);
    ArgumentsDistinct(front + ":" + word, params, format, identity, multipart, hasBody);
  }

  /** So does an upload to `/x/:content_type`, and to any other path with just that parameter, at its end. */
  lemma ContentTypeTwice(front: string, params: Params, format: string)
    requires ':' !in front && Parsed(front + ":" + "content_type", params, format)
    ensures !NoDuplicates(Arguments(Tenant, params, true, true))
  {
    ArgumentTwice(front, "content_type", params, format, Tenant, true, true);
  }

  /** A path with one parameter, at its end. */
  lemma OneMatch(path: string, colon: nat, name: string)
    requires colon + 1 < |path| && path[colon] == ':' && path[colon + 1..] == name
    requires ':' !in path[..colon] && forall i :: 0 <= i < |name| ==> IsPart(name[i])
    ensures MatchNames(path, 0) == [name]
  {
    FirstMatch(path, 0, colon);
    assert forall i :: colon < i < |path| ==> path[i] == name[i - colon - 1];
    assert PartsEnd(path, colon + 1) == |path|;
    assert path[colon + 1..|path|] == name;
  }

  lemma {:induction false} FirstMatch(path: string, from: nat, colon: nat)
    requires from <= colon && colon + 1 < |path| && path[colon] == ':' && IsPart(path[colon + 1])
    requires ':' !in path[..colon]
    ensures NextMatch(path, from) == Some((colon, PartsEnd(path, colon + 1)))
    decreases colon - from
  {
    if from < colon {
      assert path[from] in path[..colon];
      FirstMatch(path, from + 1, colon);
    }
  }

  /** Snake case outside both tables is left as it is. */
  lemma WordStays(word: string)
    requires IsSnake(word) && '_' in word
    ensures SanitizeParam(word) == word
  {
    SnakeSame(word);
    TwoWordsUnreserved(word);
  }

  // ---------- putting the names back ----------

  predicate BraceFree(s: string) {
    '{' !in s && '}' !in s
  }

  function OriginalOf(params: Params, local: string): Option<string> {
    if params == [] then None
    else if params[0].0 == local then Some(params[0].1)
    else OriginalOf(params[1..], local)
  }

  /** Each `{local}` replaced by `:name`. */
  function Restore(text: string, params: Params): string
    decreases |text|
  {
    if text == "" then ""
    else if text[0] != '{' then [text[0]] + Restore(text[1..], params)
    else
      match SplitOnce(text[1..], '}')
      case None => text
      case Some((local, rest)) =>
        match OriginalOf(params, local)
        case None => text
        case Some(name) => ":" + name + Restore(rest, params)
  }

  lemma {:induction false} RestoreLiteral(literal: string, rest: string, params: Params)
    requires '{' !in literal
    ensures Restore(literal + rest, params) == literal + Restore(rest, params)
  {
    if literal == "" {
      assert literal + rest == rest;
    } else {
      var c, others := literal[0], literal[1..];
      assert c in literal && literal == [c] + others;
      RestoreLiteral(others, rest, params);
      Sequences.Append2([c], others, rest);
      Sequences.Append2([c], others, Restore(rest, params));
    }
  }

  lemma {:induction false} OriginalFound(params: Params, i: nat)
    requires LocalsDistinct(params) && i < |params|
    ensures OriginalOf(params, params[i].0) == Some(params[i].1)
  {
    if i > 0 {
      assert params[0].0 != params[i].0;
      OriginalFound(params[1..], i - 1);
    }
  }

  lemma RestoreLocal(params: Params, i: nat, rest: string)
    requires LocalsDistinct(params) && AllLocal(params) && i < |params|
    ensures Restore("{" + params[i].0 + "}" + rest, params) == ":" + params[i].1 + Restore(rest, params)
  {
    var local := params[i].0;
    assert '}' !in local;
    var text := "{" + local + "}" + rest;
    assert text[1..] == local + "}" + rest;
    SplitOnceUnique(local, rest, '}');
    OriginalFound(params, i);
  }

  /** The first n parameters put back. */
  lemma {:induction false} RestoreFirst(between: seq<string>, params: Params, n: nat, rest: string)
    requires n <= |params| == |between| && LocalsDistinct(params) && AllLocal(params)
    requires forall i :: 0 <= i < n ==> '{' !in between[i]
    ensures Restore(Braced(between[..n], params[..n]) + rest, params)
         == Plain(between[..n], params[..n]) + Restore(rest, params)
  {
    if n == 0 {
      assert "" + rest == rest;
    } else {
      var last := n - 1;
      var tail := between[last] + ("{" + params[last].0 + "}" + rest);
      LastBraced(between, params, n, rest);
      RestoreFirst(between, params, last, tail);
      RestoreOne(params, last, between[last], rest);
      LastPlain(between, params, n, Restore(rest, params));
    }
  }

  lemma RestoreOne(params: Params, i: nat, literal: string, rest: string)
    requires LocalsDistinct(params) && AllLocal(params) && i < |params| && '{' !in literal
    ensures Restore(literal + ("{" + params[i].0 + "}" + rest), params)
         == literal + (":" + params[i].1 + Restore(rest, params))
  {
    RestoreLiteral(literal, "{" + params[i].0 + "}" + rest, params);
    RestoreLocal(params, i, rest);
  }

  lemma LastBraced(between: seq<string>, params: Params, n: nat, rest: string)
    requires 0 < n <= |params| == |between|
    ensures Braced(between[..n], params[..n]) + rest
         == Braced(between[..n - 1], params[..n - 1]) + (between[n - 1] + ("{" + params[n - 1].0 + "}" + rest))
  {
    assert between[..n][..n - 1] == between[..n - 1] && params[..n][..n - 1] == params[..n - 1];
  }

  lemma LastPlain(between: seq<string>, params: Params, n: nat, rest: string)
    requires 0 < n <= |params| == |between|
    ensures Plain(between[..n], params[..n]) + rest
         == Plain(between[..n - 1], params[..n - 1]) + (between[n - 1] + (":" + params[n - 1].1 + rest))
  {
    assert between[..n][..n - 1] == between[..n - 1] && params[..n][..n - 1] == params[..n - 1];
  }

  lemma {:induction false} BetweenIsBraceFree(between: seq<string>, params: Params, tail: string)
    requires |between| == |params| && '{' !in Plain(between, params) + tail
    ensures '{' !in tail && forall i :: 0 <= i < |between| ==> '{' !in between[i]
  {
    if params != [] {
      var last := |params| - 1;
      BetweenIsBraceFree(between[..last], params[..last], between[last]);
    }
  }

  /** Putting the names back restores a path without braces. */
  lemma Restores(path: string, params: Params, format: string, between: seq<string>, tail: string)
    requires BraceFree(path) && LocalsDistinct(params) && AllLocal(params) && Woven(path, params, format, between, tail)
    ensures Restore(format, params) == path
  {
    BetweenIsBraceFree(between, params, tail);
    assert between[..|between|] == between && params[..|params|] == params;
    RestoreFirst(between, params, |params|, tail);
    RestoreLiteral(tail, "", params);
    assert tail + "" == tail;
  }
}
