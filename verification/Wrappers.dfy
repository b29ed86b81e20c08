/** Optional values, shared by the other modules. */
module Wrappers {
  datatype Option<+T> = None | Some(value: T)
}

/** Concatenation is associative: the regroupings the proofs about text and tokens use. */
module Sequences {
  lemma Append2<T>(o: seq<T>, a: seq<T>, b: seq<T>)
    ensures o + a + b == o + (a + b)
  {
  }

  lemma Append3<T>(o: seq<T>, a: seq<T>, b: seq<T>, c: seq<T>)
    ensures o + a + b + c == o + (a + b + c)
  {
  }

  lemma Append4<T>(o: seq<T>, a: seq<T>, b: seq<T>, c: seq<T>, d: seq<T>)
    ensures o + a + b + c + d == o + (a + b + c + d)
  {
    Append3(o, a, b, c);
  }

  lemma Nest3<T>(a: seq<T>, b: seq<T>, c: seq<T>, rest: seq<T>)
    ensures (a + b + c) + rest == a + (b + (c + rest))
  {
  }

  lemma Nest4<T>(a: seq<T>, b: seq<T>, c: seq<T>, d: seq<T>, rest: seq<T>)
    ensures (a + b + c + d) + rest == a + (b + (c + (d + rest)))
  {
    Nest3(a, b, c, d + rest);
  }

  lemma TakeNext<T>(s: seq<T>, i: nat)
    requires i < |s|
    ensures s[..i + 1] == s[..i] + [s[i]]
  {
  }

  lemma TakeAll<T>(s: seq<T>)
    ensures s[..|s|] == s
  {
  }

  /** The lists one after the other. */
  function Flatten<T>(lists: seq<seq<T>>): seq<T> {
    if lists == [] then [] else Flatten(lists[..|lists| - 1]) + lists[|lists| - 1]
  }

  lemma {:induction false} FlattenEmpty<T>(lists: seq<seq<T>>)
    ensures Flatten(lists) == [] <==> forall i :: 0 <= i < |lists| ==> lists[i] == []
  {
    if lists != [] {
      FlattenEmpty(lists[..|lists| - 1]);
      assert |Flatten(lists)| == |Flatten(lists[..|lists| - 1])| + |lists[|lists| - 1]|;
    }
  }

  lemma {:induction false} FlattenMembers<T>(lists: seq<seq<T>>, x: T)
    ensures x in Flatten(lists) <==> exists i :: 0 <= i < |lists| && x in lists[i]
  {
    if lists != [] {
      FlattenMembers(lists[..|lists| - 1], x);
    }
  }
}
