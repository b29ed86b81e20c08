/** Sorting, as the source's library sorts promise it: a stable, ordered permutation. */
module Sorting {
  ghost predicate Total<T(!new)>(leq: (T, T) -> bool) {
    && (forall x, y :: leq(x, y) || leq(y, x))
    && (forall x, y, z :: leq(x, y) && leq(y, z) ==> leq(x, z))
  }

  ghost predicate Ordered<T>(s: seq<T>, leq: (T, T) -> bool) {
    forall i, j :: 0 <= i < j < |s| ==> leq(s[i], s[j])
  }

  ghost predicate NoDuplicates<T>(s: seq<T>) {
    forall i, j :: 0 <= i < j < |s| ==> s[i] != s[j]
  }

  function Insert<T>(x: T, s: seq<T>, leq: (T, T) -> bool): seq<T> {
    if s == [] || leq(x, s[0]) then [x] + s else [s[0]] + Insert(x, s[1..], leq)
  }

  function Sort<T>(s: seq<T>, leq: (T, T) -> bool): seq<T> {
    if s == [] then [] else Insert(s[0], Sort(s[1..], leq), leq)
  }

  lemma {:induction false} InsertContents<T>(x: T, s: seq<T>, leq: (T, T) -> bool)
    ensures multiset(Insert(x, s, leq)) == multiset{x} + multiset(s)
  {
    if s != [] && !leq(x, s[0]) {
      InsertContents(x, s[1..], leq);
      assert s == [s[0]] + s[1..];
    }
  }

  lemma {:induction false} InsertOrdered<T(!new)>(x: T, s: seq<T>, leq: (T, T) -> bool)
    requires Total(leq) && Ordered(s, leq)
    ensures Ordered(Insert(x, s, leq), leq)
  {
    if s != [] && !leq(x, s[0]) {
      InsertOrdered(x, s[1..], leq);
      InsertContents(x, s[1..], leq);
      var rest := Insert(x, s[1..], leq);
      forall i | 0 <= i < |rest| ensures leq(s[0], rest[i]) {
        assert rest[i] in multiset(rest);
        assert rest[i] == x || rest[i] in s[1..];
      }
    } else {
      forall i | 0 <= i < |s| ensures leq(x, s[i]) {
        assert i == 0 || leq(s[0], s[i]);
      }
    }
  }

  lemma {:induction false} SortContents<T>(s: seq<T>, leq: (T, T) -> bool)
    ensures multiset(Sort(s, leq)) == multiset(s)
    ensures |Sort(s, leq)| == |s|
  {
    if s != [] {
      SortContents(s[1..], leq);
      InsertContents(s[0], Sort(s[1..], leq), leq);
      assert s == [s[0]] + s[1..];
    }
    assert |multiset(Sort(s, leq))| == |multiset(s)|;
  }

  lemma {:induction false} SortOrdered<T(!new)>(s: seq<T>, leq: (T, T) -> bool)
    requires Total(leq)
    ensures Ordered(Sort(s, leq), leq)
  {
    if s != [] {
      SortOrdered(s[1..], leq);
      InsertOrdered(s[0], Sort(s[1..], leq), leq);
    }
  }

  lemma SortMembers<T>(s: seq<T>, leq: (T, T) -> bool)
    ensures forall x :: x in Sort(s, leq) <==> x in s
  {
    SortContents(s, leq);
    forall x ensures x in Sort(s, leq) <==> x in s {
      assert x in Sort(s, leq) <==> x in multiset(Sort(s, leq));
      assert x in s <==> x in multiset(s);
    }
  }

  lemma DuplicateCount<T>(s: seq<T>)
    ensures NoDuplicates(s) <==> forall x :: x in multiset(s) ==> multiset(s)[x] == 1
  {
    if s != [] {
      var x, rest := s[0], s[1..];
      assert s == [x] + rest;
      DuplicateCount(rest);
      assert multiset(s) == multiset{x} + multiset(rest);
      if NoDuplicates(s) {
        assert x !in rest;
        forall y | y in multiset(s) ensures multiset(s)[y] == 1 {
          if y != x {
            assert y in multiset(rest);
          }
        }
      } else {
        var i, j :| 0 <= i < j < |s| && s[i] == s[j];
        if i == 0 {
          assert s[j] == rest[j - 1] && x in multiset(rest);
          assert multiset(s)[x] >= 2;
        } else {
          assert rest[i - 1] == rest[j - 1];
          var y :| y in multiset(rest) && multiset(rest)[y] != 1;
          assert multiset(s)[y] >= multiset(rest)[y];
        }
      }
    }
  }

  lemma SortKeepsDistinct<T>(s: seq<T>, leq: (T, T) -> bool)
    requires NoDuplicates(s)
    ensures NoDuplicates(Sort(s, leq))
  {
    SortContents(s, leq);
    DuplicateCount(s);
    DuplicateCount(Sort(s, leq));
  }

  // ---------- strings ----------

  /** The order of strings, which for UTF-8 text is the order of their scalar values. */
  predicate StringLeq(a: string, b: string) {
    a == "" || (b != "" && (a[0] < b[0] || (a[0] == b[0] && StringLeq(a[1..], b[1..]))))
  }

  lemma {:induction false} StringOrder(a: string, b: string, c: string)
    ensures StringLeq(a, b) || StringLeq(b, a)
    ensures StringLeq(a, b) && StringLeq(b, a) ==> a == b
    ensures StringLeq(a, b) && StringLeq(b, c) ==> StringLeq(a, c)
  {
    if a != "" && b != "" {
      StringOrder(a[1..], b[1..], if c == "" then "" else c[1..]);
      if a[0] == b[0] && a[1..] == b[1..] {
        assert a == [a[0]] + a[1..] && b == [b[0]] + b[1..];
      }
    }
  }

  lemma StringTotal()
    ensures Total(StringLeq)
  {
    forall x, y ensures StringLeq(x, y) || StringLeq(y, x) {
      StringOrder(x, y, "");
    }
    forall x, y, z | StringLeq(x, y) && StringLeq(y, z) ensures StringLeq(x, z) {
      StringOrder(x, y, z);
    }
  }

  /** The strings agree up to this place, and there the first has the smaller character. */
  predicate SmallerAt(a: string, b: string, k: nat) {
    k < |a| && k < |b| && a[..k] == b[..k] && a[k] < b[k]
  }

  /** A proper beginning of the other, or smaller where the two first differ. */
  ghost predicate Before(a: string, b: string) {
    a < b || exists k: nat :: SmallerAt(a, b, k)
  }

  lemma SmallerLater(a: string, b: string, c: char, k: nat)
    ensures SmallerAt([c] + a, [c] + b, k + 1) <==> SmallerAt(a, b, k)
  {
    if k < |a| && k < |b| {
      assert ([c] + a)[..k + 1] == [c] + a[..k] && ([c] + b)[..k + 1] == [c] + b[..k];
      assert a[..k] == ([c] + a)[..k + 1][1..] && b[..k] == ([c] + b)[..k + 1][1..];
    }
  }

  lemma BeforeLater(a: string, b: string, c: char)
    ensures Before([c] + a, [c] + b) <==> Before(a, b)
  {
    if exists k: nat :: SmallerAt(a, b, k) {
      var k: nat :| SmallerAt(a, b, k);
      SmallerLater(a, b, c, k);
    }
    if exists k: nat :: SmallerAt([c] + a, [c] + b, k) {
      var k: nat :| SmallerAt([c] + a, [c] + b, k);
      SmallerLater(a, b, c, k - 1);
    }
    PrefixLater(a, b, c);
  }

  lemma PrefixLater(a: string, b: string, c: char)
    ensures [c] + a < [c] + b <==> a < b
  {
    if |a| < |b| {
      assert ([c] + b)[..|a| + 1] == [c] + b[..|a|];
      assert ([c] + a)[1..] == a && ([c] + b[..|a|])[1..] == b[..|a|];
    }
  }

  lemma {:induction false} StringLeqExactly(a: string, b: string)
    ensures StringLeq(a, b) <==> a == b || Before(a, b)
  {
    if a != "" && b != "" {
      if a[0] == b[0] {
        BeforeLater(a[1..], b[1..], a[0]);
        StringLeqExactly(a[1..], b[1..]);
        assert a == [a[0]] + a[1..] && b == [a[0]] + b[1..];
      } else {
        DifferAtOnce(a, b);
      }
    }
  }

  lemma DifferAtOnce(a: string, b: string)
    requires a != "" && b != "" && a[0] != b[0]
    ensures Before(a, b) <==> a[0] < b[0]
  {
    assert a[0] < b[0] ==> SmallerAt(a, b, 0);
    if exists k: nat :: SmallerAt(a, b, k) {
      var k: nat :| SmallerAt(a, b, k);
      AgreeAtFirst(a, b, k);
    }
  }

  lemma AgreeAtFirst(a: string, b: string, k: nat)
    requires SmallerAt(a, b, k)
    ensures k > 0 ==> a[0] == b[0]
  {
    assert k > 0 ==> a[..k][0] == b[..k][0];
  }

  // ---------- sets ----------

  /** The elements of a finite set in some order. */
  method Elements<T>(s: set<T>) returns (r: seq<T>)
    ensures NoDuplicates(r)
    ensures forall x :: x in r <==> x in s
  {
    r := [];
    var rest := s;
    while rest != {}
      invariant rest <= s && NoDuplicates(r)
      invariant forall x :: x in r <==> x in s && x !in rest
    {
      var x :| x in rest;
      rest := rest - {x};
      r := r + [x];
    }
  }
}
