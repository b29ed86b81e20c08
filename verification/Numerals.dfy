/** Decimal numerals. */
module Numerals {
  function Digit(d: nat): char
    requires d < 10
  {
    '0' + d as char
  }

  function Decimal(n: nat): (s: string)
    ensures s != ""
  {
    if n < 10 then [Digit(n)] else Decimal(n / 10) + [Digit(n % 10)]
  }

  predicate IsDigit(c: char) {
    '0' <= c <= '9'
  }

  function DecimalValue(s: string): nat
    requires forall i :: 0 <= i < |s| ==> IsDigit(s[i])
  {
    if s == "" then 0
    else
      var last := s[|s| - 1];
      assert IsDigit(last);
      10 * DecimalValue(s[..|s| - 1]) + (last as int - '0' as int)
  }

  /** Numbers print and read back. */
  lemma {:induction false} DecimalReadsBack(n: nat)
    ensures forall i :: 0 <= i < |Decimal(n)| ==> IsDigit(Decimal(n)[i])
    ensures DecimalValue(Decimal(n)) == n
  {
    var s := Decimal(n);
    if n >= 10 {
      DecimalReadsBack(n / 10);
      assert s[..|s| - 1] == Decimal(n / 10);
    } else {
      assert s[..|s| - 1] == "";
    }
  }

  function Zeros(n: nat): (r: string)
    ensures |r| == n
  {
    seq(n, i => '0')
  }

  lemma DecimalNext(v: nat, d: nat)
    requires v > 0 && d < 10
    ensures Decimal(10 * v + d) == Decimal(v) + [Digit(d)]
  {
    assert (10 * v + d) / 10 == v && (10 * v + d) % 10 == d;
  }

  /** Any digits are zeros and the printed number, but for a number of their own. */
  lemma {:induction false} DigitsArePrinted(s: string) returns (zeros: nat)
    requires s != "" && forall i :: 0 <= i < |s| ==> IsDigit(s[i])
    ensures s == Zeros(zeros) + Decimal(DecimalValue(s))
  {
    var front, last := s[..|s| - 1], s[|s| - 1];
    assert s == front + [last] && IsDigit(last);
    var d := last as int - '0' as int;
    if front == "" {
      zeros := 0;
      assert DecimalValue(s) == d && Digit(d) == last;
      assert s == Zeros(0) + [last];
    } else {
      zeros := DigitsArePrinted(front);
      var v := DecimalValue(front);
      assert DecimalValue(s) == 10 * v + d && Digit(d) == last;
      if v == 0 {
        assert Decimal(v) == "0" && Decimal(d) == [last];
        assert Zeros(zeros) + "0" == Zeros(zeros + 1);
        zeros := zeros + 1;
      } else {
        DecimalNext(v, d);
      }
    }
  }

  lemma {:induction false} ZerosCountNothing(zeros: nat, s: string)
    requires forall i :: 0 <= i < |s| ==> IsDigit(s[i])
    ensures forall i :: 0 <= i < |Zeros(zeros) + s| ==> IsDigit((Zeros(zeros) + s)[i])
    ensures DecimalValue(Zeros(zeros) + s) == DecimalValue(s)
    decreases |s|, zeros
  {
    var all := Zeros(zeros) + s;
    if s != "" {
      var front := s[..|s| - 1];
      assert all[..|all| - 1] == Zeros(zeros) + front && all[|all| - 1] == s[|s| - 1];
      ZerosCountNothing(zeros, front);
    } else if zeros > 0 {
      assert all[..zeros - 1] == Zeros(zeros - 1) + s && all[zeros - 1] == '0';
      ZerosCountNothing(zeros - 1, s);
    }
  }
}
