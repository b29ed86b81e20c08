/** FNV-1a over 64 bits (section 2 of draft-eastlake-fnv) and the seeds of derived random streams. */
module Fnv {
  import opened Encoding

  type u64 = n: int | 0 <= n < 0x1_0000_0000_0000_0000

  const OFFSET: u64 := 0xcbf29ce484222325
  const PRIME: u64 := 0x100000001b3

  /** The inverse of the prime modulo 2^64. */
  const INVERSE: u64 := 0xce965057aff6957b

  /** Bitwise exclusive or. */
  function Xor(a: nat, b: nat): nat
    decreases a + b
  {
    if a == 0 && b == 0 then 0 else 2 * Xor(a / 2, b / 2) + (a + b) % 2
  }

  lemma {:induction false} XorZero(a: nat)
    ensures Xor(a, 0) == a
  {
    if a > 0 {
      XorZero(a / 2);
    }
  }

  /** Shifts n right by k bits. */
  function Halve(n: nat, k: nat): nat
    decreases k
  {
    if k == 0 then n else Halve(n / 2, k - 1)
  }

  lemma {:induction false} XorHalves(a: nat, b: nat, k: nat)
    ensures Halve(Xor(a, b), k) == Xor(Halve(a, k), Halve(b, k))
    decreases k
  {
    if k > 0 {
      XorHalves(a / 2, b / 2, k - 1);
    }
  }

  lemma HalveEight(n: nat)
    ensures Halve(n, 8) == n / 0x100
  {
    assert Halve(n, 8) == Halve(n / 2, 7) == Halve(n / 4, 6) == Halve(n / 8, 5) == Halve(n / 16, 4);
    assert Halve(n / 16, 4) == Halve(n / 32, 3) == Halve(n / 64, 2) == Halve(n / 128, 1) == Halve(n / 0x100, 0);
  }

  /** A byte changes only the lowest byte of the state. */
  lemma XorKeepsHigh(hash: nat, b: byte)
    ensures Xor(hash, b) / 0x100 == hash / 0x100
  {
    XorHalves(hash, b, 8);
    HalveEight(Xor(hash, b));
    HalveEight(hash);
    HalveEight(b);
    XorZero(hash / 0x100);
  }

  /** A bit of the result is set exactly if it is set in one of the two. */
  lemma XorBits(a: nat, b: nat, k: nat)
    ensures Halve(Xor(a, b), k) % 2 == 1 <==> Halve(a, k) % 2 != Halve(b, k) % 2
  {
    XorHalves(a, b, k);
    LowestBit(Halve(a, k), Halve(b, k));
  }

  lemma LowestBit(a: nat, b: nat)
    ensures Xor(a, b) % 2 == 1 <==> a % 2 != b % 2
  {
    XorParts(a, b);
    SumParity(a, b);
  }

  lemma SumParity(a: nat, b: nat)
    ensures (a + b) % 2 == 1 <==> a % 2 != b % 2
  {
    assert a == a / 2 * 2 + a % 2 && b == b / 2 * 2 + b % 2;
  }

  /** `hash ^ byte` */
  function XorByte(hash: u64, b: byte): u64 {
    XorKeepsHigh(hash, b);
    Xor(hash, b)
  }

  /** `hash.wrapping_mul(factor)` */
  function WrappingMul(hash: u64, factor: u64): u64 {
    hash * factor % 0x1_0000_0000_0000_0000
  }

  /** One byte of the hash. */
  function Step(hash: u64, b: byte): u64 {
    WrappingMul(XorByte(hash, b), PRIME)
  }

  /** Undoes a step. */
  function StepBack(hash: u64, b: byte): u64 {
    XorByte(WrappingMul(hash, INVERSE), b)
  }

  /** The state after hashing all of `data` from a given state. */
  function Fold(hash: u64, data: seq<byte>): u64
    decreases |data|
  {
    if data == [] then hash else Fold(Step(hash, data[0]), data[1..])
  }

  /** The state that hashing `data` turns into the given one. */
  function Unfold(hash: u64, data: seq<byte>): u64
    decreases |data|
  {
    if data == [] then hash else StepBack(Unfold(hash, data[1..]), data[0])
  }

  function Hash(data: seq<byte>): u64 {
    Fold(OFFSET, data)
  }

  /** The two factors multiply to 1 modulo 2^64. */
  lemma InverseUndoes(x: u64)
    ensures WrappingMul(WrappingMul(x, PRIME), INVERSE) == x
  {
    var q := x * PRIME / 0x1_0000_0000_0000_0000;
    SplitProduct(x * PRIME);
    assert WrappingMul(x, PRIME) * INVERSE == x + (887285111055 * x - q * INVERSE) * 0x1_0000_0000_0000_0000;
    Reduced(x, 887285111055 * x - q * INVERSE);
  }

  lemma PrimeUndoes(x: u64)
    ensures WrappingMul(WrappingMul(x, INVERSE), PRIME) == x
  {
    var q := x * INVERSE / 0x1_0000_0000_0000_0000;
    SplitProduct(x * INVERSE);
    assert WrappingMul(x, INVERSE) * PRIME == x + (887285111055 * x - q * PRIME) * 0x1_0000_0000_0000_0000;
    Reduced(x, 887285111055 * x - q * PRIME);
  }

  lemma SplitProduct(p: nat)
    ensures p % 0x1_0000_0000_0000_0000 == p - p / 0x1_0000_0000_0000_0000 * 0x1_0000_0000_0000_0000
  {
  }

  lemma Reduced(x: u64, t: int)
    ensures (x + t * 0x1_0000_0000_0000_0000) % 0x1_0000_0000_0000_0000 == x
  {
  }

  lemma XorParts(a: nat, b: nat)
    ensures Xor(a, b) == 2 * Xor(a / 2, b / 2) + (a + b) % 2
    ensures Xor(a, b) / 2 == Xor(a / 2, b / 2) && Xor(a, b) % 2 == (a + b) % 2
  {
  }

  lemma Parity(a: nat, b: nat, r: nat)
    requires r % 2 == (a + b) % 2
    ensures (r + b) % 2 == a % 2 && (a + r) % 2 == b % 2
  {
  }

  lemma {:induction false} XorTwice(a: nat, b: nat)
    ensures Xor(Xor(a, b), b) == a
    decreases a + b
  {
    if a > 0 || b > 0 {
      var r := Xor(a, b);
      XorParts(a, b);
      Parity(a, b, r);
      XorTwice(a / 2, b / 2);
      XorParts(r, b);
    }
  }

  lemma {:induction false} XorSymmetric(a: nat, b: nat)
    ensures Xor(a, b) == Xor(b, a)
    decreases a + b
  {
    if a > 0 || b > 0 {
      XorSymmetric(a / 2, b / 2);
    }
  }

  lemma StepInverse(hash: u64, b: byte)
    ensures StepBack(Step(hash, b), b) == hash
    ensures Step(StepBack(hash, b), b) == hash
  {
    InverseUndoes(XorByte(hash, b));
    PrimeUndoes(hash);
    XorTwice(hash, b);
    XorTwice(WrappingMul(hash, INVERSE), b);
  }

  /** Hashing a fixed text is a bijection on states: every state has exactly one predecessor. */
  lemma {:induction false} FoldBijective(hash: u64, data: seq<byte>)
    ensures Unfold(Fold(hash, data), data) == hash
    ensures Fold(Unfold(hash, data), data) == hash
    decreases |data|
  {
    if data != [] {
      StepInverse(hash, data[0]);
      FoldBijective(Step(hash, data[0]), data[1..]);
      FoldBijective(hash, data[1..]);
      StepInverse(Unfold(hash, data[1..]), data[0]);
    }
  }

  /** A common suffix neither hides nor creates a collision. */
  lemma SuffixCancels(h1: u64, h2: u64, data: seq<byte>)
    ensures Fold(h1, data) == Fold(h2, data) <==> h1 == h2
  {
    FoldBijective(h1, data);
    FoldBijective(h2, data);
  }

  lemma {:induction false} FoldConcat(hash: u64, a: seq<byte>, b: seq<byte>)
    ensures Fold(hash, a + b) == Fold(Fold(hash, a), b)
    decreases |a|
  {
    if a == [] {
      assert a + b == b;
    } else {
      assert (a + b)[0] == a[0] && (a + b)[1..] == a[1..] + b;
      FoldConcat(Step(hash, a[0]), a[1..], b);
    }
  }

  lemma FoldLast(hash: u64, data: seq<byte>, b: byte)
    ensures Fold(hash, data + [b]) == Step(Fold(hash, data), b)
  {
    FoldConcat(hash, data, [b]);
    assert [b][1..] == [];
    assert Fold(Fold(hash, data), [b]) == Fold(Step(Fold(hash, data), b), []);
  }

  /** The hash loop. */
  method HashInto(start: u64, data: seq<byte>) returns (hash: u64)
    ensures hash == Fold(start, data)
  {
    hash := start;
    for i := 0 to |data|
      invariant hash == Fold(start, data[..i])
    {
      FoldLast(start, data[..i], data[i]);
      assert data[..i + 1] == data[..i] + [data[i]];
      hash := XorByte(hash, data[i]);
      hash := WrappingMul(hash, PRIME);
    }
    assert data[..|data|] == data;
  }

  method Fnv1a64(data: seq<byte>) returns (hash: u64)
    ensures hash == Hash(data)
  {
    hash := HashInto(OFFSET, data);
  }

  /** Two texts hashed without joining them. */
  method Fnv1a64Chain(a: seq<byte>, b: seq<byte>) returns (hash: u64)
    ensures hash == Hash(a + b)
  {
    hash := HashInto(OFFSET, a);
    hash := HashInto(hash, b);
    FoldConcat(OFFSET, a, b);
  }

  /** The two texts have the same length and differ at position k only. */
  predicate DifferAt(a: seq<byte>, b: seq<byte>, k: nat) {
    && k < |a| == |b| && a[k] != b[k]
    && forall i :: 0 <= i < |a| && i != k ==> a[i] == b[i]
  }

  lemma StepsDiffer(hash: u64, x: byte, y: byte)
    requires x != y
    ensures Step(hash, x) != Step(hash, y)
  {
    XorSymmetric(hash, x);
    XorSymmetric(hash, y);
    XorTwice(x, hash);
    XorTwice(y, hash);
    InverseUndoes(XorByte(hash, x));
    InverseUndoes(XorByte(hash, y));
  }

  /** One changed byte always changes the hash, from any state. */
  lemma OneByteMatters(hash: u64, a: seq<byte>, b: seq<byte>, k: nat)
    requires DifferAt(a, b, k)
    ensures Fold(hash, a) != Fold(hash, b)
  {
    var prefix, suffix := a[..k], a[k + 1..];
    assert b[..k] == prefix && b[k + 1..] == suffix;
    assert a == prefix + [a[k]] + suffix && b == prefix + [b[k]] + suffix;
    var state := Fold(hash, prefix);
    FoldConcat(hash, prefix + [a[k]], suffix);
    FoldConcat(hash, prefix + [b[k]], suffix);
    FoldLast(hash, prefix, a[k]);
    FoldLast(hash, prefix, b[k]);
    StepsDiffer(state, a[k], b[k]);
    SuffixCancels(Step(state, a[k]), Step(state, b[k]), suffix);
  }

  // ---------- a published hash ----------

  /** The lowest k bits of `c` are those of the exclusive or, the others those of `a`, and `b` has no others. */
  predicate Mixed(a: nat, b: nat, c: nat, k: nat)
    decreases k
  {
    if k == 0 then a == c && b == 0 else c % 2 == (a + b) % 2 && Mixed(a / 2, b / 2, c / 2, k - 1)
  }

  lemma {:induction false} MixedIsXor(a: nat, b: nat, c: nat, k: nat)
    requires Mixed(a, b, c, k)
    ensures Xor(a, b) == c
    decreases k
  {
    if k == 0 {
      XorZero(a);
    } else {
      MixedIsXor(a / 2, b / 2, c / 2, k - 1);
      XorParts(a, b);
    }
  }

  lemma StepTo(hash: u64, b: byte, mixed: u64, next: u64)
    requires Mixed(hash, b, mixed, 8) && next == mixed * PRIME % 0x1_0000_0000_0000_0000
    ensures Step(hash, b) == next
  {
    MixedIsXor(hash, b, mixed, 8);
  }

  /** The prime in the form in which it is published, and the published hash of the text "a". */
  lemma PublishedHash()
    ensures PRIME == 0x100_0000_0000 + 0x100 + 0xb3
    ensures Hash([0x61]) == 0xaf63dc4c8601ec8c
  {
    StepTo(OFFSET, 0x61, 0xcbf29ce484222344, 0xaf63dc4c8601ec8c);
    assert [0x61][1..] == [];
  }

  // ---------- derived streams ----------

  /** The bytes of a seed, lowest first. */
  function LittleEndian(seed: u64): seq<byte> {
    seq(8, i requires 0 <= i < 8 => ByteAt(seed, i))
  }

  function ByteAt(n: nat, i: nat): byte {
    if i == 0 then n % 0x100 else ByteAt(n / 0x100, i - 1)
  }

  function Pow256(k: nat): (p: nat)
    ensures p > 0
  {
    if k == 0 then 1 else 0x100 * Pow256(k - 1)
  }

  /** The bytes weighted by the powers of 256. */
  function Weighted(bytes: seq<byte>): nat {
    if bytes == [] then 0 else bytes[0] + 0x100 * Weighted(bytes[1..])
  }

  lemma {:induction false} LowestBytes(n: nat, k: nat)
    requires n < Pow256(k)
    ensures Weighted(seq(k, i requires 0 <= i < k => ByteAt(n, i))) == n
  {
    if k > 0 {
      var bytes := seq(k, i requires 0 <= i < k => ByteAt(n, i));
      assert bytes[1..] == seq(k - 1, i requires 0 <= i < k - 1 => ByteAt(n / 0x100, i));
      LowestBytes(n / 0x100, k - 1);
    }
  }

  /** The bytes stand for the seed, lowest first. */
  lemma LittleEndianSums(seed: u64)
    ensures |LittleEndian(seed)| == 8 && Weighted(LittleEndian(seed)) == seed
  {
    assert Pow256(4) == 0x1_0000_0000 && Pow256(8) == 0x1_0000_0000 * Pow256(4);
    LowestBytes(seed, 8);
  }

  /** The seed of the child stream with the given label. */
  function DerivedSeed(seed: u64, tag: seq<byte>): u64 {
    Hash(LittleEndian(seed) + tag)
  }

  /** Labels that differ in one byte give one parent different children. */
  lemma LabelsSeparate(seed: u64, a: seq<byte>, b: seq<byte>, k: nat)
    requires DifferAt(a, b, k)
    ensures DerivedSeed(seed, a) != DerivedSeed(seed, b)
  {
    FoldConcat(OFFSET, LittleEndian(seed), a);
    FoldConcat(OFFSET, LittleEndian(seed), b);
    OneByteMatters(Fold(OFFSET, LittleEndian(seed)), a, b, k);
  }

  /** Parents whose seeds differ in one byte have different children under every label. */
  lemma ParentsSeparate(s: u64, t: u64, tag: seq<byte>, k: nat)
    requires DifferAt(LittleEndian(s), LittleEndian(t), k)
    ensures DerivedSeed(s, tag) != DerivedSeed(t, tag)
  {
    FoldConcat(OFFSET, LittleEndian(s), tag);
    FoldConcat(OFFSET, LittleEndian(t), tag);
    OneByteMatters(OFFSET, LittleEndian(s), LittleEndian(t), k);
    SuffixCancels(Fold(OFFSET, LittleEndian(s)), Fold(OFFSET, LittleEndian(t)), tag);
  }

  /** Two labels with a common end collide exactly when they collide without it. */
  lemma CommonEnding(seed: u64, a: seq<byte>, b: seq<byte>, ending: seq<byte>)
    ensures DerivedSeed(seed, a + ending) == DerivedSeed(seed, b + ending)
       <==> DerivedSeed(seed, a) == DerivedSeed(seed, b)
  {
    var s := LittleEndian(seed);
    assert s + (a + ending) == (s + a) + ending && s + (b + ending) == (s + b) + ending;
    FoldConcat(OFFSET, s + a, ending);
    FoldConcat(OFFSET, s + b, ending);
    SuffixCancels(Fold(OFFSET, s + a), Fold(OFFSET, s + b), ending);
  }
}
