/** Names of generated methods and of their path parameters. */
module Names {
  import opened Sequences
  import opened Numerals
  import opened Sorting

  // ---------- the candidates of a name ----------

  /** The name itself, then the name with 1, 2, 3, ... */
  function Candidate(base: string, index: nat): string {
    if index == 0 then base else base + "_" + Decimal(index)
  }

  lemma CandidatesDiffer(base: string, i: nat, j: nat)
    requires Candidate(base, i) == Candidate(base, j)
    ensures i == j
  {
    DecimalReadsBack(i);
    DecimalReadsBack(j);
    var c := Candidate(base, i);
    if i != 0 {
      assert c[|base| + 1..] == Decimal(i);
    }
    if j != 0 {
      assert c[|base| + 1..] == Decimal(j);
    }
  }

  /** The number as it is written: in decimal, without leading zeros. */
  predicate Writes(digits: string, n: nat) {
    && digits != "" && (forall i :: 0 <= i < |digits| ==> IsDigit(digits[i]))
    && DecimalValue(digits) == n && (digits[0] == '0' ==> digits == "0")
  }

  lemma {:induction false} DecimalWrites(n: nat)
    ensures Writes(Decimal(n), n) && (Decimal(n)[0] == '0' ==> n == 0)
  {
    DecimalReadsBack(n);
    if n >= 10 {
      DecimalWrites(n / 10);
      assert Decimal(n)[0] == Decimal(n / 10)[0];
    }
  }

  lemma PaddedBegins(zeros: nat, s: string)
    requires s != ""
    ensures zeros > 0 ==> (Zeros(zeros) + s)[0] == '0' && |Zeros(zeros) + s| > 1
  {
  }

  lemma OneWriting(digits: string, n: nat)
    requires Writes(digits, n)
    ensures digits == Decimal(n)
  {
    var zeros := DigitsArePrinted(digits);
    DecimalWrites(n);
    PaddedBegins(zeros, Decimal(n));
  }

  /** The first candidate is the name, the n-th after it the name, an underscore and the number n. */
  lemma CandidateExactly(base: string, index: nat, text: string)
    ensures text == Candidate(base, index)
       <==> if index == 0 then text == base else exists digits :: text == base + "_" + digits && Writes(digits, index)
  {
    DecimalWrites(index);
    if index > 0 && exists digits :: text == base + "_" + digits && Writes(digits, index) {
      var digits :| text == base + "_" + digits && Writes(digits, index);
      OneWriting(digits, index);
    }
  }

  /** Some suffix makes the candidate a name in use. */
  predicate Blocked(candidate: string, suffixes: set<string>, used: set<string>) {
    exists s :: s in suffixes && candidate + s in used
  }

  type Series = nat -> string

  ghost predicate Injective(c: Series) {
    forall i: nat, j: nat :: c(i) == c(j) ==> i == j
  }

  function Product(a: set<string>, b: set<string>): set<(string, string)> {
    set x, y | x in a && y in b :: (x, y)
  }

  lemma {:induction false} ProductSize(a: set<string>, b: set<string>)
    ensures |Product(a, b)| == |a| * |b|
    decreases |a|
  {
    if a == {} {
      assert Product(a, b) == {};
    } else {
      var x :| x in a;
      ProductSize(a - {x}, b);
      RowSize(x, b);
      ProductSplits(a, b, x);
    }
  }

  lemma ProductSplits(a: set<string>, b: set<string>, x: string)
    requires x in a
    ensures |Product(a, b)| == |Product(a - {x}, b)| + |Product({x}, b)| && |a| == |a - {x}| + 1
  {
    var rest, row := Product(a - {x}, b), Product({x}, b);
    assert Product(a, b) == rest + row;
    assert rest !! row;
  }

  lemma {:induction false} RowSize(x: string, b: set<string>)
    ensures |Product({x}, b)| == |b|
    decreases |b|
  {
    if b == {} {
      assert Product({x}, b) == {};
    } else {
      var y :| y in b;
      RowSize(x, b - {y});
      assert Product({x}, b) == Product({x}, b - {y}) + {(x, y)};
    }
  }

  lemma SameFront(a: string, b: string, s: string)
    requires a + s == b + s
    ensures a == b
  {
    assert a == (a + s)[..|a + s| - |s|];
    assert b == (b + s)[..|b + s| - |s|];
  }

  /** Each blocked candidate spoils a pair of a suffix and a used name, and no two spoil the same pair. */
  lemma {:induction false} SpoiledPairs(c: Series, suffixes: set<string>, used: set<string>,
                                        k: nat) returns (pairs: set<(string, string)>)
    requires Injective(c) && forall j: nat :: j < k ==> Blocked(c(j), suffixes, used)
    ensures |pairs| == k && pairs <= Product(suffixes, used)
    ensures forall p :: p in pairs ==> exists j: nat :: j < k && p.1 == c(j) + p.0
  {
    if k == 0 {
      pairs := {};
    } else {
      var before := SpoiledPairs(c, suffixes, used, k - 1);
      var s :| s in suffixes && c(k - 1) + s in used;
      var p := (s, c(k - 1) + s);
      if p in before {
        var j: nat :| j < k - 1 && p.1 == c(j) + p.0;
        SameFront(c(j), c(k - 1), s);
        assert false;
      }
      pairs := before + {p};
      forall q | q in pairs ensures exists j: nat :: j < k && q.1 == c(j) + q.0 {
        if q == p {
          assert q.1 == c(k - 1) + q.0;
        } else {
          var j: nat :| j < k - 1 && q.1 == c(j) + q.0;
        }
      }
    }
  }

  lemma {:induction false} SubsetSize(a: set<(string, string)>, b: set<(string, string)>)
    requires a <= b
    ensures |a| <= |b|
    decreases |a|
  {
    if a != {} {
      var x :| x in a;
      SubsetSize(a - {x}, b - {x});
    }
  }

  /** A search over distinct candidates passes at most (suffixes) x (used names) blocked ones. */
  lemma SearchBound(c: Series, suffixes: set<string>, used: set<string>, k: nat)
    requires Injective(c) && forall j: nat :: j < k ==> Blocked(c(j), suffixes, used)
    ensures k <= |suffixes| * |used|
  {
    var pairs := SpoiledPairs(c, suffixes, used, k);
    SubsetSize(pairs, Product(suffixes, used));
    ProductSize(suffixes, used);
  }

  function Candidates(base: string): Series {
    (index: nat) => Candidate(base, index)
  }

  lemma CandidatesInjective(base: string)
    ensures Injective(Candidates(base))
  {
    forall i: nat, j: nat | Candidates(base)(i) == Candidates(base)(j) ensures i == j {
      CandidatesDiffer(base, i, j);
    }
  }

  /** The first candidate that no suffix turns into a used name. */
  ghost predicate FirstFree(base: string, index: nat, suffixes: set<string>, used: set<string>) {
    && !Blocked(Candidate(base, index), suffixes, used)
    && forall j: nat :: j < index ==> Blocked(Candidates(base)(j), suffixes, used)
  }

  method FindName(base: string, suffixes: set<string>, used: set<string>) returns (candidate: string, index: nat)
    ensures candidate == Candidate(base, index) && FirstFree(base, index, suffixes, used)
    ensures index <= |suffixes| * |used|
  {
    CandidatesInjective(base);
    candidate, index := base, 0;
    while Blocked(candidate, suffixes, used)
      invariant candidate == Candidate(base, index)
      invariant forall j: nat :: j < index ==> Blocked(Candidates(base)(j), suffixes, used)
      decreases |suffixes| * |used| - index
    {
      assert Blocked(Candidates(base)(index), suffixes, used);
      SearchBound(Candidates(base), suffixes, used, index + 1);
      index := index + 1;
      candidate := base + "_" + Decimal(index);
    }
    SearchBound(Candidates(base), suffixes, used, index);
  }

  // ---------- the names of a domain ----------

  datatype Endpoint = Endpoint(base: string, tokens: set<string>)

  /** A suffix of the method name for each kind of token; public if there is none. */
  function Variants(tokens: set<string>): seq<string> {
    var named := (if "Tenant" in tokens then [""] else []) + (if "User" in tokens then ["_user"] else [])
                 + (if "App" in tokens then ["_app"] else []);
    if named == [] then ["_public"] else named
  }

  lemma VariantsDistinct(tokens: set<string>)
    ensures NoDuplicates(Variants(tokens)) && Variants(tokens) != []
  {
    var v := Variants(tokens);
    assert |"_user"| == 5 && |"_app"| == 4;
    forall i, j | 0 <= i < j < |v| ensures |v[i]| != |v[j]| {
    }
  }

  /** There is a method for each kind of token, and a public one exactly if there is none of the three. */
  lemma VariantsExactly(tokens: set<string>, suffix: string)
    ensures suffix in Variants(tokens)
       <==> || (suffix == "" && "Tenant" in tokens) || (suffix == "_user" && "User" in tokens)
            || (suffix == "_app" && "App" in tokens)
            || (suffix == "_public" && tokens !! {"Tenant", "User", "App"})
  {
    assert "Tenant" in {"Tenant", "User", "App"} && "User" in {"Tenant", "User", "App"};
    assert "App" in {"Tenant", "User", "App"};
  }

  function SuffixSet(e: Endpoint): set<string> {
    set s | s in Variants(e.tokens)
  }

  /** The methods of one endpoint. */
  function EndpointNames(e: Endpoint, index: nat): seq<string> {
    var v := Variants(e.tokens);
    seq(|v|, i requires 0 <= i < |v| => Candidate(e.base, index) + v[i])
  }

  function AllNames(endpoints: seq<Endpoint>, picks: seq<nat>): seq<string>
    requires |picks| == |endpoints|
  {
    if endpoints == [] then []
    else
      var last := |endpoints| - 1;
      AllNames(endpoints[..last], picks[..last]) + EndpointNames(endpoints[last], picks[last])
  }

  function Members(names: seq<string>): set<string> {
    set n | n in names
  }

  lemma NewNamesDistinct(names: seq<string>, e: Endpoint, index: nat)
    requires NoDuplicates(names) && !Blocked(Candidate(e.base, index), SuffixSet(e), Members(names))
    ensures NoDuplicates(names + EndpointNames(e, index))
  {
    var more, v := EndpointNames(e, index), Variants(e.tokens);
    VariantsDistinct(e.tokens);
    forall i, j | 0 <= i < j < |more| ensures more[i] != more[j] {
      if more[i] == more[j] {
        SameTail(Candidate(e.base, index), v[i], v[j]);
      }
    }
    forall i, j | 0 <= i < |names| && 0 <= j < |more| ensures names[i] != more[j] {
      assert v[j] in SuffixSet(e) && names[i] in Members(names);
    }
  }

  lemma SameTail(a: string, s: string, t: string)
    requires a + s == a + t
    ensures s == t
  {
    assert s == (a + s)[|a|..];
    assert t == (a + t)[|a|..];
  }

  /** The endpoint was given the first name that was free then. */
  ghost predicate Picked(endpoints: seq<Endpoint>, picks: seq<nat>, i: nat)
    requires |picks| == |endpoints| && i < |endpoints|
  {
    FirstFree(endpoints[i].base, picks[i], SuffixSet(endpoints[i]), Members(AllNames(endpoints[..i], picks[..i])))
  }

  /** Distinct names, given to the endpoints in turn. */
  ghost predicate Named(endpoints: seq<Endpoint>, picks: seq<nat>, names: seq<string>) {
    && |picks| == |endpoints| && names == AllNames(endpoints, picks) && NoDuplicates(names)
    && forall i :: 0 <= i < |endpoints| ==> Picked(endpoints, picks, i)
  }

  /** All method names emitted for one domain are distinct. */
  method NameMethods(endpoints: seq<Endpoint>) returns (names: seq<string>, picks: seq<nat>)
    ensures Named(endpoints, picks, names)
  {
    names, picks := [], [];
    var used: set<string> := {};
    for i := 0 to |endpoints|
      invariant Named(endpoints[..i], picks, names) && used == Members(names)
    {
      var e := endpoints[i];
      TakeNext(endpoints, i);
      var candidate, index := FindName(e.base, SuffixSet(e), used);
      NextNamed(endpoints[..i], picks, names, e, index);
      used := used + set s | s in Variants(e.tokens) :: candidate + s;
      names, picks := names + EndpointNames(e, index), picks + [index];
    }
    assert endpoints[..|endpoints|] == endpoints;
  }

  lemma NextNamed(endpoints: seq<Endpoint>, picks: seq<nat>, names: seq<string>, e: Endpoint, index: nat)
    requires Named(endpoints, picks, names) && FirstFree(e.base, index, SuffixSet(e), Members(names))
    ensures Named(endpoints + [e], picks + [index], names + EndpointNames(e, index))
    ensures Members(names + EndpointNames(e, index))
         == Members(names) + set s | s in Variants(e.tokens) :: Candidate(e.base, index) + s
  {
    NewNamesDistinct(names, e, index);
    NextNames(endpoints, picks, e, index);
    MembersGrow(names, e, index);
  }

  lemma MembersGrow(names: seq<string>, e: Endpoint, index: nat)
    ensures Members(names + EndpointNames(e, index))
         == Members(names) + set s | s in Variants(e.tokens) :: Candidate(e.base, index) + s
  {
    var more, v := EndpointNames(e, index), Variants(e.tokens);
    forall s | s in v ensures Candidate(e.base, index) + s in more {
      var i :| 0 <= i < |v| && v[i] == s;
      assert more[i] == Candidate(e.base, index) + s;
    }
  }

  lemma NextNames(endpoints: seq<Endpoint>, picks: seq<nat>, e: Endpoint, index: nat)
    requires |picks| == |endpoints| && forall k :: 0 <= k < |endpoints| ==> Picked(endpoints, picks, k)
    requires FirstFree(e.base, index, SuffixSet(e), Members(AllNames(endpoints, picks)))
    ensures AllNames(endpoints + [e], picks + [index]) == AllNames(endpoints, picks) + EndpointNames(e, index)
    ensures forall k :: 0 <= k <= |endpoints| ==> Picked(endpoints + [e], picks + [index], k)
  {
    var more, indices := endpoints + [e], picks + [index];
    assert more[..|endpoints|] == endpoints && indices[..|endpoints|] == picks;
    forall k | 0 <= k <= |endpoints| ensures Picked(more, indices, k) {
      assert more[..k] == endpoints[..k] && indices[..k] == picks[..k];
      if k < |endpoints| {
        assert Picked(endpoints, picks, k);
      } else {
        assert endpoints[..k] == endpoints && picks[..k] == picks;
      }
    }
  }
}
