/** What the five passes of the snake form compute, read off in one pass; and what becomes of a name in camel case. */
module SnakeCase {
  import opened Identifiers
  import opened PathParams
  import opened Sequences
  import opened Text

  predicate IsCapital(c: char) {
    'A' <= c <= 'Z'
  }

  /**
   The letters and digits in lower case. An underscore stands before one of them, unless it is the first, if it is
   a capital or anything else stood between. `started` says that there was one, `gap` that something else followed.
   */
  function OnePass(s: string, started: bool, gap: bool): string {
    if s == "" then ""
    else if IsAlnum(s[0]) then
      (if started && (gap || IsCapital(s[0])) then "_" else "") + [LowerChar(s[0])] + OnePass(s[1..], true, false)
    else OnePass(s[1..], started, true)
  }

  /** The same for underscores alone, and without the lower case. */
  function Compact(q: string, started: bool, gap: bool): string {
    if q == "" then ""
    else if IsAlnum(q[0]) then (if started && gap then "_" else "") + [q[0]] + Compact(q[1..], true, false)
    else Compact(q[1..], started, true)
  }

  // ---------- runs of underscores ----------

  lemma {:induction false} StripEndFront(c: char, t: string)
    ensures StripEnd([c] + t) == if c == '_' && StripEnd(t) == "" then "" else [c] + StripEnd(t)
    decreases |t|
  {
    var all := [c] + t;
    if t == "" {
      assert all[..0] == "";
    } else {
      var front := t[..|t| - 1];
      assert all[..|all| - 1] == [c] + front && all[|all| - 1] == t[|t| - 1];
      StripEndFront(c, front);
    }
  }

  /** A run of underscores counts as one. */
  lemma OneOfTwo(q: string)
    requires q != "" && q[0] == '_'
    ensures Squeeze("_" + q) == Squeeze(q)
  {
    assert ("_" + q)[1..] == q;
  }

  lemma BeforeAlnum(q: string)
    requires q != "" && IsAlnum(q[0])
    ensures Squeeze("_" + q) == "_" + Squeeze(q) && Squeeze(q) == [q[0]] + Squeeze(q[1..])
  {
    assert ("_" + q)[1..] == q;
  }

  /** After a letter or digit: underscores at the end go, other runs become one. */
  lemma {:induction false} CompactStarted(q: string, gap: bool)
    requires AllParts(q)
    ensures Compact(q, true, gap) == StripEnd(Squeeze(if gap then "_" + q else q))
    decreases |q|
  {
    if q == "" {
      assert StripEnd("_") == "";
    } else {
      assert q[0] in q && forall x :: x in q[1..] ==> x in q;
      if IsAlnum(q[0]) {
        CompactStarted(q[1..], false);
        AlnumStays(q);
        GapStays(q);
      } else {
        CompactStarted(q[1..], true);
        OneOfTwo(q);
        assert q == "_" + q[1..];
      }
    }
  }

  lemma AlnumStays(q: string)
    requires q != "" && IsAlnum(q[0])
    ensures StripEnd(Squeeze(q)) == [q[0]] + StripEnd(Squeeze(q[1..]))
  {
    BeforeAlnum(q);
    StripEndFront(q[0], Squeeze(q[1..]));
  }

  lemma GapStays(q: string)
    requires q != "" && IsAlnum(q[0])
    ensures StripEnd(Squeeze("_" + q)) == "_" + [q[0]] + StripEnd(Squeeze(q[1..]))
  {
    AlnumStays(q);
    BeforeAlnum(q);
    StripEndFront('_', Squeeze(q));
    Append2("_", [q[0]], StripEnd(Squeeze(q[1..])));
  }

  lemma SkipsUnderscore(rest: string)
    ensures StripStart(Squeeze("_" + rest)) == StripStart(Squeeze(rest))
  {
    var q := "_" + rest;
    assert q[1..] == rest;
    if rest == "" || rest[0] != '_' {
      assert Squeeze(q) == "_" + Squeeze(rest) && Squeeze(q)[1..] == Squeeze(rest);
    }
  }

  lemma {:induction false} CompactAtStart(q: string, gap: bool)
    requires AllParts(q)
    ensures Compact(q, false, gap) == StripEnd(StripStart(Squeeze(q)))
    decreases |q|
  {
    if q != "" {
      var c, rest := q[0], q[1..];
      assert c in q && forall x :: x in rest ==> x in q;
      if IsAlnum(c) {
        BeforeAlnum(q);
        CompactStarted(rest, false);
        StripEndFront(c, Squeeze(rest));
        assert StripStart(Squeeze(q)) == Squeeze(q);
      } else {
        CompactAtStart(rest, true);
        SkipsUnderscore(rest);
        assert q == "_" + rest;
      }
    }
  }

  // ---------- the other passes ----------

  lemma LowerJoined(a: string, b: string)
    ensures Lower(a + b) == Lower(a) + Lower(b)
  {
  }

  lemma PartsFront(c: char, s: string)
    ensures OnlyParts([c] + s) == [if IsPart(c) then c else '_'] + OnlyParts(s)
  {
  }

  lemma CompactFront(c: char, q: string, started: bool, gap: bool)
    ensures Compact([c] + q, started, gap)
         == if IsAlnum(c) then (if started && gap then "_" else "") + [c] + Compact(q, true, false)
            else Compact(q, started, true)
  {
    assert ([c] + q)[1..] == q;
  }

  lemma LowerFirst(mark: string, c: char, rest: string)
    requires mark == "" || mark == "_"
    ensures Lower(mark + [c] + rest) == mark + [LowerChar(c)] + Lower(rest)
  {
    LowerJoined(mark + [c], rest);
    LowerJoined(mark, [c]);
  }

  /** Breaking at capitals puts a gap before them. */
  lemma {:induction false} BrokenCompact(s: string, atStart: bool, started: bool, gap: bool)
    requires atStart ==> !started
    ensures Lower(Compact(OnlyParts(BreakCapitals(s, atStart)), started, gap)) == OnePass(s, started, gap)
  {
    if s == "" {
      assert OnlyParts("") == "";
    } else {
      var c, rest := s[0], s[1..];
      var tail := OnlyParts(BreakCapitals(rest, false));
      PartsFront(c, BreakCapitals(rest, false));
      if IsAlnum(c) {
        BrokenCompact(rest, false, true, false);
        FirstCompact(c, tail, started, gap, IsCapital(c) && !atStart);
        LowerFirst(if started && (gap || IsCapital(c)) then "_" else "", c, Compact(tail, true, false));
        if IsCapital(c) && !atStart {
          BreakFront(c, rest);
        }
      } else {
        BrokenCompact(rest, false, started, true);
        CompactFront('_', tail, started, gap);
      }
    }
  }

  lemma BreakFront(c: char, rest: string)
    requires IsCapital(c)
    ensures OnlyParts(BreakCapitals([c] + rest, false)) == "_" + [c] + OnlyParts(BreakCapitals(rest, false))
  {
    var s := [c] + rest;
    assert s[1..] == rest;
    assert BreakCapitals(s, false) == ['_'] + ([c] + BreakCapitals(rest, false));
    PartsFront('_', [c] + BreakCapitals(rest, false));
    PartsFront(c, BreakCapitals(rest, false));
  }

  lemma FirstCompact(c: char, tail: string, started: bool, gap: bool, broken: bool)
    requires IsAlnum(c)
    ensures Compact((if broken then "_" else "") + [c] + tail, started, gap)
         == (if started && (gap || broken) then "_" else "") + [c] + Compact(tail, true, false)
  {
    CompactFront(c, tail, started, gap);
    CompactFront(c, tail, started, true);
    CompactFront('_', [c] + tail, started, gap);
    assert "_" + [c] + tail == ['_'] + ([c] + tail);
    assert "" + [c] + tail == [c] + tail;
  }

  /** The snake form, exactly. */
  lemma SnakeInOnePass(s: string)
    ensures Snake(s) == OnePass(s, false, false)
  {
    var q := OnlyParts(BreakCapitals(s, true));
    assert AllParts(q);
    BrokenCompact(s, true, false, false);
    CompactAtStart(q, false);
  }

  // ---------- camel case ----------

  /** Lower-case letters and digits, with a letter first. */
  predicate IsWord(w: string) {
    w != "" && 'a' <= w[0] <= 'z' && forall i :: 0 <= i < |w| ==> 'a' <= w[i] <= 'z' || '0' <= w[i] <= '9'
  }

  predicate AllWords(words: seq<string>) {
    words != [] && forall i :: 0 <= i < |words| ==> IsWord(words[i])
  }

  function Capitalised(w: string): string
    requires IsWord(w)
  {
    [(w[0] as int - 32) as char] + w[1..]
  }

  /** The words with a capital each. */
  function Pascal(words: seq<string>): string
    requires forall i :: 0 <= i < |words| ==> IsWord(words[i])
  {
    if words == [] then "" else Capitalised(words[0]) + Pascal(words[1..])
  }

  /** The words with a capital each but the first. */
  function Camel(words: seq<string>): string
    requires AllWords(words)
  {
    words[0] + Pascal(words[1..])
  }

  lemma {:induction false} WordPasses(w: string, rest: string, started: bool)
    requires forall i :: 0 <= i < |w| ==> 'a' <= w[i] <= 'z' || '0' <= w[i] <= '9'
    ensures OnePass(w + rest, started, false) == w + OnePass(rest, started || w != "", false)
  {
    if w == "" {
      assert w + rest == rest;
    } else {
      WordPasses(w[1..], rest, true);
      assert (w + rest)[1..] == w[1..] + rest;
      assert [w[0]] + w[1..] == w;
    }
  }

  lemma CapitalPasses(w: string, rest: string)
    requires IsWord(w)
    ensures OnePass(Capitalised(w) + rest, true, false) == "_" + w + OnePass(rest, true, false)
    ensures OnePass(Capitalised(w) + rest, false, false) == w + OnePass(rest, true, false)
  {
    var t := Capitalised(w) + rest;
    assert t[1..] == w[1..] + rest && LowerChar(t[0]) == w[0];
    WordPasses(w[1..], rest, true);
    assert [w[0]] + w[1..] == w;
  }

  /** What joining puts after the first word. */
  function Tail(words: seq<string>): string {
    if words == [] then "" else "_" + Join(words, "_")
  }

  lemma JoinHead(words: seq<string>)
    requires words != []
    ensures Join(words, "_") == words[0] + Tail(words[1..])
  {
    if |words| > 1 {
      assert words[0] + "_" + Join(words[1..], "_") == words[0] + ("_" + Join(words[1..], "_"));
    }
  }

  lemma {:induction false} PascalPasses(words: seq<string>)
    requires forall i :: 0 <= i < |words| ==> IsWord(words[i])
    ensures OnePass(Pascal(words), true, false) == Tail(words)
  {
    if words != [] {
      CapitalPasses(words[0], Pascal(words[1..]));
      PascalPasses(words[1..]);
      JoinHead(words);
      assert "_" + words[0] + Tail(words[1..]) == "_" + (words[0] + Tail(words[1..]));
    }
  }

  lemma PascalAtStart(words: seq<string>)
    requires AllWords(words)
    ensures OnePass(Pascal(words), false, false) == Join(words, "_")
  {
    JoinHead(words);
    PascalPasses(words[1..]);
    CapitalPasses(words[0], Pascal(words[1..]));
  }

  lemma CamelPasses(words: seq<string>)
    requires AllWords(words)
    ensures OnePass(Camel(words), false, false) == Join(words, "_")
  {
    JoinHead(words);
    PascalPasses(words[1..]);
    WordPasses(words[0], Pascal(words[1..]), false);
  }

  /** A name in camel case, with a capital first or not, is split at each capital. */
  lemma CamelSplits(words: seq<string>)
    requires AllWords(words)
    ensures Snake(Camel(words)) == Join(words, "_") && Snake(Pascal(words)) == Join(words, "_")
  {
    SnakeInOnePass(Camel(words));
    SnakeInOnePass(Pascal(words));
    CamelPasses(words);
    PascalAtStart(words);
  }
}
