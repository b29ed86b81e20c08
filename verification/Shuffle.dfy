/**
 The in-place Fisher-Yates shuffle and sampling without replacement. The generator is an arbitrary
 source of numbers in the requested range; what it draws is recorded, and the results say which
 draws give which outcome.
 */
module Shuffle {
  import opened Sorting

  class StableRng {
    /** Everything drawn so far. */
    ghost var drawn: seq<nat>

    constructor ()
      ensures drawn == []
    {
      drawn := [];
    }

    /** A number in 0 .. max. */
    method RandomBelow(max: nat) returns (v: nat)
      requires max > 0
      modifies this
      ensures v < max && drawn == old(drawn) + [v]
    {
      v :| v < max;
      drawn := drawn + [v];
    }
  }

  // ---------- what a shuffle does ----------

  /** One draw for each position from the last down to the second, each at most that position. */
  predicate ValidDraws(draws: seq<nat>, n: nat) {
    |draws| == (if n == 0 then 0 else n - 1) && forall k :: 0 <= k < |draws| ==> draws[k] < n - k
  }

  function Swap<T>(s: seq<T>, i: nat, j: nat): seq<T>
    requires i < |s| && j < |s|
  {
    s[i := s[j]][j := s[i]]
  }

  /** The outcome of a shuffle with given draws: the last place is settled first. */
  function Shuffled<T>(s: seq<T>, draws: seq<nat>): (r: seq<T>)
    requires ValidDraws(draws, |s|)
    ensures |r| == |s|
    decreases |s|
  {
    if |s| <= 1 then s
    else
      var last := |s| - 1;
      var t := Swap(s, last, draws[0]);
      Shuffled(t[..last], draws[1..]) + [t[last]]
  }

  lemma OneTurn<T>(s: seq<T>, j: nat, more: seq<nat>)
    requires |s| > 1 && j < |s| && ValidDraws(more, |s| - 1)
    ensures ValidDraws([j] + more, |s|)
    ensures var t := Swap(s, |s| - 1, j);
      Shuffled(s, [j] + more) == Shuffled(t[..|s| - 1], more) + [t[|s| - 1]]
  {
    assert ([j] + more)[1..] == more;
  }

  /**
   After some turns, with position i next: whatever is drawn from here on, the whole shuffle is that
   shuffle of the first i + 1 places followed by the places already settled.
   */
  ghost predicate Turned<T>(orig: seq<T>, now: seq<T>, draws: seq<nat>, i: nat) {
    && i < |now| == |orig|
    && forall more :: ValidDraws(more, i + 1) ==>
      ValidDraws(draws + more, |orig|) && Shuffled(orig, draws + more) == Shuffled(now[..i + 1], more) + now[i + 1..]
  }

  lemma TurnedAtStart<T>(s: seq<T>)
    requires s != []
    ensures Turned(s, s, [], |s| - 1)
  {
    assert s[..|s|] == s && s[|s|..] == [];
    forall more | ValidDraws(more, |s|)
      ensures ValidDraws([] + more, |s|) && Shuffled(s, [] + more) == Shuffled(s[..|s|], more) + s[|s|..]
    {
      assert [] + more == more;
    }
  }

  lemma SwapSettles<T>(now: seq<T>, i: nat, j: nat)
    requires 0 < i < |now| && j <= i
    ensures var next, front := Swap(now, i, j), Swap(now[..i + 1], i, j);
      next[..i] == front[..i] && next[i..] == [front[i]] + now[i + 1..]
  {
  }

  /** One more turn, whatever is drawn after it. */
  lemma TurnThen<T>(now: seq<T>, i: nat, j: nat, more: seq<nat>)
    requires 0 < i < |now| && j <= i && ValidDraws(more, i)
    ensures ValidDraws([j] + more, i + 1)
    ensures var next := Swap(now, i, j);
      Shuffled(now[..i + 1], [j] + more) + now[i + 1..] == Shuffled(next[..i], more) + next[i..]
  {
    var front := now[..i + 1];
    SwapSettles(now, i, j);
    OneTurn(front, j, more);
    Regroup(Shuffled(Swap(front, i, j)[..i], more), Swap(front, i, j)[i], now[i + 1..]);
  }

  lemma Regroup<T>(a: seq<T>, x: T, b: seq<T>)
    ensures a + [x] + b == a + ([x] + b)
  {
  }

  lemma TurnedNext<T>(orig: seq<T>, now: seq<T>, draws: seq<nat>, i: nat, j: nat)
    requires Turned(orig, now, draws, i) && 0 < i && j <= i
    ensures Turned(orig, Swap(now, i, j), draws + [j], i - 1)
  {
    var next := Swap(now, i, j);
    forall more | ValidDraws(more, i)
      ensures ValidDraws(draws + [j] + more, |orig|)
      ensures Shuffled(orig, draws + [j] + more) == Shuffled(next[..i], more) + next[i..]
    {
      TurnThen(now, i, j, more);
      assert draws + [j] + more == draws + ([j] + more);
    }
  }

  /** The loop: positions len - 1 down to 1, each swapped with a drawn position not above it. */
  method ShuffleArray<T>(a: array<T>, rng: StableRng)
    modifies a, rng
    ensures old(rng.drawn) <= rng.drawn
    ensures ValidDraws(rng.drawn[|old(rng.drawn)|..], a.Length)
    ensures a[..] == Shuffled(old(a[..]), rng.drawn[|old(rng.drawn)|..])
  {
    var len := a.Length;
    if len == 0 {
      return;
    }
    ghost var orig, draws: seq<nat> := a[..], [];
    TurnedAtStart(orig);
    var i := len - 1;
    while i > 0
      invariant 0 <= i < len
      invariant rng.drawn == old(rng.drawn) + draws
      invariant Turned(orig, a[..], draws, i)
    {
      var j := rng.RandomBelow(i + 1);
      TurnedNext(orig, a[..], draws, i, j);
      ghost var next := Swap(a[..], i, j);
      a[i], a[j] := a[j], a[i];
      assert a[..] == next;
      draws := draws + [j];
      i := i - 1;
    }
    assert ValidDraws([], 1) && draws + [] == draws;
    assert a[..][..1] + a[..][1..] == a[..];
  }

  // ---------- every permutation from exactly one choice ----------

  lemma SwapContents<T>(s: seq<T>, i: nat, j: nat)
    requires i < |s| && j < |s|
    ensures multiset(Swap(s, i, j)) == multiset(s)
  {
  }

  /** A shuffle only rearranges. */
  lemma {:induction false} ShuffleRearranges<T>(s: seq<T>, draws: seq<nat>)
    requires ValidDraws(draws, |s|)
    ensures multiset(Shuffled(s, draws)) == multiset(s)
    decreases |s|
  {
    if |s| > 1 {
      var last := |s| - 1;
      var t := Swap(s, last, draws[0]);
      SwapContents(s, last, draws[0]);
      ShuffleRearranges(t[..last], draws[1..]);
      assert t == t[..last] + [t[last]];
    }
  }

  /** Different draws give different arrangements of distinct elements. */
  lemma {:induction false} DrawsDetermined<T>(s: seq<T>, d: seq<nat>, e: seq<nat>)
    requires NoDuplicates(s) && ValidDraws(d, |s|) && ValidDraws(e, |s|)
    requires Shuffled(s, d) == Shuffled(s, e)
    ensures d == e
    decreases |s|
  {
    if |s| > 1 {
      var last := |s| - 1;
      var t, u := Swap(s, last, d[0]), Swap(s, last, e[0]);
      var x, y := Shuffled(t[..last], d[1..]), Shuffled(u[..last], e[1..]);
      assert (x + [t[last]])[last] == (y + [u[last]])[last];
      assert t[last] == s[d[0]] && u[last] == s[e[0]];
      assert d[0] == e[0];
      assert x == (x + [t[last]])[..last] == (y + [u[last]])[..last] == y;
      DrawsDetermined(t[..last], d[1..], e[1..]);
      assert d == [d[0]] + d[1..] && e == [e[0]] + e[1..];
    }
  }

  lemma FrontContents<T>(t: seq<T>, p: seq<T>)
    requires |t| > 0 && multiset(t) == multiset(p) && |t| == |p| && t[|t| - 1] == p[|p| - 1]
    ensures multiset(t[..|t| - 1]) == multiset(p[..|p| - 1])
  {
    assert t == t[..|t| - 1] + [t[|t| - 1]] && p == p[..|p| - 1] + [p[|p| - 1]];
    assert multiset(t[..|t| - 1]) == multiset(t) - multiset{t[|t| - 1]};
    assert multiset(p[..|p| - 1]) == multiset(p) - multiset{p[|p| - 1]};
  }

  /** A draw that settles the last place as p has it. */
  lemma LastDraw<T>(s: seq<T>, p: seq<T>) returns (j: nat)
    requires multiset(s) == multiset(p) && |s| == |p| > 0
    ensures j < |s| && s[j] == p[|p| - 1]
    ensures var t := Swap(s, |s| - 1, j);
      t[|s| - 1] == p[|s| - 1] && multiset(t[..|s| - 1]) == multiset(p[..|s| - 1])
  {
    var last := |s| - 1;
    assert p[last] in multiset(s);
    j :| j < |s| && s[j] == p[last];
    SwapContents(s, last, j);
    FrontContents(Swap(s, last, j), p);
  }

  /** The draws that turn s into its rearrangement p. */
  lemma {:induction false} DrawsFor<T>(s: seq<T>, p: seq<T>) returns (draws: seq<nat>)
    requires multiset(s) == multiset(p)
    ensures ValidDraws(draws, |s|) && Shuffled(s, draws) == p
    decreases |s|
  {
    assert |multiset(s)| == |multiset(p)|;
    if |s| == 0 {
      draws := [];
    } else {
      var last := |s| - 1;
      var j := LastDraw(s, p);
      assert p == p[..last] + [p[last]];
      if last == 0 {
        draws := [];
      } else {
        var t := Swap(s, last, j);
        var rest := DrawsFor(t[..last], p[..last]);
        OneTurn(s, j, rest);
        draws := [j] + rest;
      }
    }
  }

  /** These draws turn s into p. */
  predicate Makes<T(==)>(draws: seq<nat>, s: seq<T>, p: seq<T>) {
    ValidDraws(draws, |s|) && Shuffled(s, draws) == p
  }

  /** Each arrangement of distinct elements comes from exactly one sequence of draws. */
  lemma EachPermutationOnce<T>(s: seq<T>, p: seq<T>)
    requires NoDuplicates(s) && multiset(p) == multiset(s)
    ensures exists d :: Makes(d, s, p)
    ensures forall d, e :: Makes(d, s, p) && Makes(e, s, p) ==> d == e
  {
    var found := DrawsFor(s, p);
    assert Makes(found, s, p);
    forall d, e | Makes(d, s, p) && Makes(e, s, p) ensures d == e {
      DrawsDetermined(s, d, e);
    }
  }

  // ---------- how many choices there are ----------

  function Factorial(n: nat): nat {
    if n == 0 then 1 else n * Factorial(n - 1)
  }

  function Prefixed(x: nat, s: set<seq<nat>>): set<seq<nat>> {
    set d | d in s :: [x] + d
  }

  /** All sequences of draws for n elements. */
  function AllDraws(n: nat): (r: set<seq<nat>>)
    decreases n, 1
  {
    if n <= 1 then {[]} else DrawsBelow(n, n)
  }

  /** Those that begin with a draw below m. */
  function DrawsBelow(n: nat, m: nat): set<seq<nat>>
    requires n > 1
    decreases n, 0, m
  {
    if m == 0 then {} else DrawsBelow(n, m - 1) + Prefixed(m - 1, AllDraws(n - 1))
  }

  lemma {:induction false} AllDrawsMeaning(n: nat)
    ensures forall d :: d in AllDraws(n) <==> ValidDraws(d, n)
    decreases n, 1
  {
    if n <= 1 {
      forall d: seq<nat> ensures d in AllDraws(n) <==> ValidDraws(d, n) {
        assert d in AllDraws(n) <==> d == [];
      }
    } else {
      DrawsBelowMeaning(n, n);
    }
  }

  lemma {:induction false} DrawsBelowMeaning(n: nat, m: nat)
    requires 1 < n && m <= n
    ensures forall d :: d in DrawsBelow(n, m) <==> ValidDraws(d, n) && d[0] < m
    decreases n, 0, m
  {
    if m > 0 {
      var x, shorter := m - 1, AllDraws(n - 1);
      AllDrawsMeaning(n - 1);
      DrawsBelowMeaning(n, m - 1);
      forall d: seq<nat> ensures d in DrawsBelow(n, m) <==> ValidDraws(d, n) && d[0] < m {
        if ValidDraws(d, n) && d[0] == m - 1 {
          assert d == [m - 1] + d[1..] && ValidDraws(d[1..], n - 1);
        }
        if e :| e in shorter && d == [x] + e {
          assert ValidDraws(e, n - 1) && d[0] == m - 1;
        }
      }
    }
  }

  lemma {:induction false} PrefixedCount(x: nat, s: set<seq<nat>>)
    ensures |Prefixed(x, s)| == |s|
  {
    if s == {} {
      assert Prefixed(x, s) == {};
    } else {
      var d :| d in s;
      var rest := Prefixed(x, s - {d});
      PrefixedCount(x, s - {d});
      assert Prefixed(x, s) == rest + {[x] + d};
      forall e | e in s - {d} ensures [x] + e != [x] + d {
        assert ([x] + e)[1..] == e && ([x] + d)[1..] == d;
      }
      assert [x] + d !in rest;
    }
  }

  lemma RowDisjoint(n: nat, m: nat)
    requires 1 < n && 0 < m <= n
    ensures DrawsBelow(n, m - 1) !! Prefixed(m - 1, AllDraws(n - 1))
  {
    DrawsBelowMeaning(n, m - 1);
  }

  lemma NextMultiple(m: nat, f: nat)
    requires m > 0
    ensures (m - 1) * f + f == m * f
  {
  }

  lemma {:induction false} DrawsBelowCount(n: nat, m: nat)
    requires 1 < n && m <= n
    ensures |DrawsBelow(n, m)| == m * |AllDraws(n - 1)|
    decreases m
  {
    if m > 0 {
      var before, row, f := DrawsBelow(n, m - 1), Prefixed(m - 1, AllDraws(n - 1)), |AllDraws(n - 1)|;
      DrawsBelowCount(n, m - 1);
      PrefixedCount(m - 1, AllDraws(n - 1));
      RowDisjoint(n, m);
      assert |before + row| == |before| + |row|;
      NextMultiple(m, f);
    }
  }

  /** There are n! sequences of draws, as many as there are arrangements. */
  lemma {:induction false} DrawCount(n: nat)
    ensures |AllDraws(n)| == Factorial(n)
  {
    if n == 1 {
      assert Factorial(1) == 1 * Factorial(0);
    } else if n > 1 {
      DrawCount(n - 1);
      DrawsBelowCount(n, n);
    }
  }

  // ---------- sampling ----------

  function Identity(n: nat): seq<nat> {
    seq(n, i => i)
  }

  function Pick<T>(s: seq<T>, indices: seq<nat>): seq<T>
    requires forall k :: 0 <= k < |indices| ==> indices[k] < |s|
  {
    seq(|indices|, k requires 0 <= k < |indices| => s[indices[k]])
  }

  /** Distinct positions of s, in the order they were picked. */
  predicate Positions(indices: seq<nat>, n: nat) {
    (forall k :: 0 <= k < |indices| ==> indices[k] < n)
    && (forall i, j :: 0 <= i < j < |indices| ==> indices[i] != indices[j])
  }

  lemma ShuffledPositions(n: nat, draws: seq<nat>)
    requires ValidDraws(draws, n)
    ensures Positions(Shuffled(Identity(n), draws), n)
  {
    var p := Shuffled(Identity(n), draws);
    ShuffleRearranges(Identity(n), draws);
    DuplicateCount(Identity(n));
    DuplicateCount(p);
    forall k | 0 <= k < n ensures p[k] < n {
      assert p[k] in multiset(Identity(n));
    }
  }

  /** The first n shuffled positions are distinct, and r holds the elements found there. */
  ghost predicate SampledBy<T>(s: seq<T>, n: nat, draws: seq<nat>, r: seq<T>)
    requires n < |s| && ValidDraws(draws, |s|)
  {
    var picked := Shuffled(Identity(|s|), draws)[..n];
    Positions(picked, |s|) && r == Pick(s, picked)
  }

  /** Picks n elements at n distinct positions; all of them, shuffled, if there are no more than n. */
  method Sample<T>(s: seq<T>, n: nat, rng: StableRng) returns (r: seq<T>)
    modifies rng
    ensures old(rng.drawn) <= rng.drawn
    ensures var draws := rng.drawn[|old(rng.drawn)|..];
      ValidDraws(draws, |s|) && if n >= |s| then r == Shuffled(s, draws) else |r| == n && SampledBy(s, n, draws, r)
  {
    ghost var start := |rng.drawn|;
    if n >= |s| {
      var result := new T[|s|](i requires 0 <= i < |s| => s[i]);
      assert result[..] == s;
      ShuffleArray(result, rng);
      return result[..];
    }
    var indices := new nat[|s|](i => i);
    assert indices[..] == Identity(|s|);
    ShuffleArray(indices, rng);
    ghost var draws := rng.drawn[start..];
    ShuffledPositions(|s|, draws);
    r := Pick(s, indices[..n]);
  }

  /** Distinct positions are some of all positions. */
  lemma SomePositions(indices: seq<nat>, n: nat)
    requires Positions(indices, n)
    ensures multiset(indices) <= multiset(Identity(n))
    ensures |multiset(Identity(n)) - multiset(indices)| == n - |indices|
  {
    DuplicateCount(indices);
    forall x | x in multiset(indices) ensures multiset(indices)[x] <= multiset(Identity(n))[x] {
      assert x in indices && Identity(n)[x] == x;
      assert x in multiset(Identity(n));
    }
    var rest := multiset(Identity(n)) - multiset(indices);
    assert multiset(Identity(n)) == multiset(indices) + rest;
  }

  lemma FreePosition(indices: seq<nat>, n: nat) returns (x: nat)
    requires Positions(indices, n) && |indices| < n
    ensures Positions(indices + [x], n)
  {
    SomePositions(indices, n);
    x :| x in multiset(Identity(n)) - multiset(indices);
    DuplicateCount(Identity(n));
    assert x in multiset(Identity(n)) && multiset(Identity(n))[x] == 1;
    assert x !in multiset(indices) && x in Identity(n);
  }

  lemma NotTooMany(indices: seq<nat>, n: nat)
    requires Positions(indices, n)
    ensures |indices| <= n
    ensures |indices| == n ==> multiset(indices) == multiset(Identity(n))
  {
    SomePositions(indices, n);
    var free := multiset(Identity(n)) - multiset(indices);
    assert multiset(Identity(n)) == multiset(indices) + free;
  }

  /** Distinct positions can be completed to an arrangement of all of them. */
  lemma {:induction false} Completed(indices: seq<nat>, n: nat) returns (rest: seq<nat>)
    requires Positions(indices, n)
    ensures |indices| <= n && multiset(indices + rest) == multiset(Identity(n))
    decreases n - |indices|
  {
    NotTooMany(indices, n);
    if |indices| == n {
      rest := [];
      assert indices + rest == indices;
    } else {
      var x := FreePosition(indices, n);
      var others := Completed(indices + [x], n);
      rest := [x] + others;
      assert indices + rest == indices + [x] + others;
    }
  }

  /** Any choice of distinct positions, in any order, can be sampled. */
  lemma EverySampleArises(indices: seq<nat>, n: nat)
    requires Positions(indices, n)
    ensures |indices| <= n
    ensures exists draws :: ValidDraws(draws, n) && Shuffled(Identity(n), draws)[..|indices|] == indices
  {
    var rest := Completed(indices, n);
    var draws := DrawsFor(Identity(n), indices + rest);
    assert Shuffled(Identity(n), draws)[..|indices|] == indices;
  }

  // ---------- how often each sample arises ----------

  /** The only draws that turn s into p. */
  ghost function TheDraws(s: seq<nat>, p: seq<nat>): (d: seq<nat>)
    requires NoDuplicates(s) && multiset(p) == multiset(s)
    ensures Makes(d, s, p)
  {
    EachPermutationOnce(s, p);
    var d :| Makes(d, s, p);
    d
  }

  /** Whether these draws give this sample of n positions. */
  predicate Gives(draws: seq<nat>, indices: seq<nat>, n: nat) {
    ValidDraws(draws, n) && |indices| <= n && Shuffled(Identity(n), draws)[..|indices|] == indices
  }

  function DrawsGiving(indices: seq<nat>, n: nat): set<seq<nat>> {
    set d | d in AllDraws(n) && Gives(d, indices, n)
  }

  /** The rest of the positions, in any order, completes the picked ones. */
  ghost predicate Complete(indices: seq<nat>, rest: seq<nat>, n: nat) {
    Positions(indices, n) && multiset(indices + rest) == multiset(Identity(n))
  }

  lemma CompleteMeans(indices: seq<nat>, rest: seq<nat>, n: nat)
    requires Complete(indices, rest, n)
    ensures |rest| == n - |indices| && NoDuplicates(rest) && NoDuplicates(Identity(n))
  {
    var all := indices + rest;
    assert |multiset(all)| == |all| && |multiset(Identity(n))| == n;
    DuplicateCount(all);
    DuplicateCount(Identity(n));
    forall i, j | 0 <= i < j < |rest| ensures rest[i] != rest[j] {
      assert all[|indices| + i] == rest[i] && all[|indices| + j] == rest[j];
    }
  }

  lemma RestRearranged(indices: seq<nat>, rest: seq<nat>, other: seq<nat>, n: nat)
    requires Complete(indices, rest, n)
    ensures Complete(indices, other, n) <==> multiset(other) == multiset(rest)
  {
    assert multiset(indices + other) == multiset(indices) + multiset(other);
    assert multiset(indices + rest) == multiset(indices) + multiset(rest);
    assert multiset(other) == multiset(indices + other) - multiset(indices);
    assert multiset(rest) == multiset(indices + rest) - multiset(indices);
  }

  /** The draws that give the sample and then the rest as e shuffles it. */
  ghost function Extended(indices: seq<nat>, rest: seq<nat>, n: nat, e: seq<nat>): (d: seq<nat>)
    requires Complete(indices, rest, n) && ValidDraws(e, |rest|)
    ensures ValidDraws(d, n) && Shuffled(Identity(n), d) == indices + Shuffled(rest, e)
  {
    CompleteMeans(indices, rest, n);
    ShuffleRearranges(rest, e);
    RestRearranged(indices, rest, Shuffled(rest, e), n);
    TheDraws(Identity(n), indices + Shuffled(rest, e))
  }

  lemma ExtendedDiffer(indices: seq<nat>, rest: seq<nat>, n: nat, d: seq<nat>, e: seq<nat>)
    requires Complete(indices, rest, n) && ValidDraws(d, |rest|) && ValidDraws(e, |rest|)
    requires Extended(indices, rest, n, d) == Extended(indices, rest, n, e)
    ensures d == e
  {
    CompleteMeans(indices, rest, n);
    var x, y := Shuffled(rest, d), Shuffled(rest, e);
    assert indices + x == indices + y;
    assert x == (indices + x)[|indices|..] && y == (indices + y)[|indices|..];
    DrawsDetermined(rest, d, e);
  }

  /** Draws that give the sample extend some draws for the rest. */
  lemma GivesIsExtended(indices: seq<nat>, rest: seq<nat>, n: nat, d: seq<nat>) returns (e: seq<nat>)
    requires Complete(indices, rest, n) && Gives(d, indices, n)
    ensures ValidDraws(e, |rest|) && d == Extended(indices, rest, n, e)
  {
    CompleteMeans(indices, rest, n);
    var p := Shuffled(Identity(n), d);
    var other := p[|indices|..];
    assert p == indices + other;
    ShuffleRearranges(Identity(n), d);
    RestRearranged(indices, rest, other, n);
    e := TheDraws(rest, other);
    DrawsDetermined(Identity(n), d, Extended(indices, rest, n, e));
  }

  ghost function AllExtended(indices: seq<nat>, rest: seq<nat>, n: nat, s: set<seq<nat>>): set<seq<nat>>
    requires Complete(indices, rest, n) && forall e :: e in s ==> ValidDraws(e, |rest|)
  {
    set e | e in s :: Extended(indices, rest, n, e)
  }

  lemma ExtendedIsNew(indices: seq<nat>, rest: seq<nat>, n: nat, s: set<seq<nat>>, e: seq<nat>)
    requires Complete(indices, rest, n) && ValidDraws(e, |rest|) && e !in s
    requires forall d :: d in s ==> ValidDraws(d, |rest|)
    ensures Extended(indices, rest, n, e) !in AllExtended(indices, rest, n, s)
  {
    forall d | d in s ensures Extended(indices, rest, n, d) != Extended(indices, rest, n, e) {
      if Extended(indices, rest, n, d) == Extended(indices, rest, n, e) {
        ExtendedDiffer(indices, rest, n, d, e);
      }
    }
  }

  lemma {:induction false} ExtendedCount(indices: seq<nat>, rest: seq<nat>, n: nat, s: set<seq<nat>>)
    requires Complete(indices, rest, n) && forall e :: e in s ==> ValidDraws(e, |rest|)
    ensures |AllExtended(indices, rest, n, s)| == |s|
    decreases |s|
  {
    if s == {} {
      assert AllExtended(indices, rest, n, s) == {};
    } else {
      var e :| e in s;
      var others, x := AllExtended(indices, rest, n, s - {e}), Extended(indices, rest, n, e);
      ExtendedCount(indices, rest, n, s - {e});
      assert AllExtended(indices, rest, n, s) == others + {x};
      ExtendedIsNew(indices, rest, n, s - {e}, e);
    }
  }

  /** Every choice of k distinct positions, in any order, comes from exactly (n - k)! of the n! sequences of draws. */
  lemma EachSampleEquallyOften(indices: seq<nat>, n: nat)
    requires Positions(indices, n)
    ensures |indices| <= n && |DrawsGiving(indices, n)| == Factorial(n - |indices|)
  {
    var rest := Completed(indices, n);
    CompleteMeans(indices, rest, n);
    var shorter := AllDraws(|rest|);
    AllDrawsMeaning(n);
    AllDrawsMeaning(|rest|);
    forall d ensures d in DrawsGiving(indices, n) <==> d in AllExtended(indices, rest, n, shorter) {
      if Gives(d, indices, n) {
        var e := GivesIsExtended(indices, rest, n, d);
        assert e in shorter;
      }
    }
    assert DrawsGiving(indices, n) == AllExtended(indices, rest, n, shorter);
    ExtendedCount(indices, rest, n, shorter);
    DrawCount(|rest|);
  }
}
