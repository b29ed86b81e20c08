/** Request identifiers: 128-bit numbers made of a clock and a counter, printed and parsed in hexadecimal. */
module RequestId {
  import opened Wrappers
  import opened Text
  import opened Encoding
  import opened Numerals

  const TWO_TO_64: nat := 0x1_0000_0000_0000_0000
  const TWO_TO_128: nat := 0x1_0000_0000_0000_0000_0000_0000_0000_0000

  // ---------- printing ----------

  function HexDigit(d: nat): char
    requires d < 16
  {
    if d < 10 then '0' + d as char else 'a' + (d - 10) as char
  }

  /** The last n hexadecimal digits of v. */
  function Hex(v: nat, n: nat): (s: string)
    ensures |s| == n
  {
    if n == 0 then "" else Hex(v / 16, n - 1) + [HexDigit(v % 16)]
  }

  function Display(v: nat): string {
    Hex(v, 32)
  }

  // ---------- parsing ----------

  function DigitOf(c: char): Option<nat> {
    if '0' <= c <= '9' then Some(c as int - '0' as int)
    else if 'a' <= c <= 'f' then Some(c as int - 'a' as int + 10)
    else if 'A' <= c <= 'F' then Some(c as int - 'A' as int + 10)
    else None
  }

  function HexValue(s: string): Option<nat> {
    if s == "" then Some(0)
    else
      match HexValue(s[..|s| - 1])
      case None => None
      case Some(high) =>
        match DigitOf(s[|s| - 1])
        case None => None
        case Some(low) => Some(16 * high + low)
  }

  /** `u128::from_str_radix(s, 16)`: one leading `+` is skipped, and nothing may be left out or overflow. */
  function FromStrRadix(s: string): Option<nat> {
    if Unsigned(s) == "" then None
    else
      match HexValue(Unsigned(s))
      case None => None
      case Some(v) => if v < TWO_TO_128 then Some(v) else None
  }

  function Unsigned(s: string): string {
    if s != "" && s[0] == '+' then s[1..] else s
  }

  function Without(s: string, c: char): string {
    if s == "" then "" else (if s[0] == c then "" else [s[0]]) + Without(s[1..], c)
  }

  function Normalized(s: string): string {
    Without(Trim(s), '-')
  }

  /** Lengths are counted in bytes. */
  function ParseHex(s: string): Option<nat> {
    var normalized := Normalized(s);
    if normalized == "" || |Utf8(normalized)| > 32 then None
    else
      match FromStrRadix(normalized)
      case None => None
      case Some(v) => if v != 0 then Some(v) else None
  }

  // ---------- printing and parsing are inverse ----------

  function Pow16(n: nat): (p: nat)
    ensures p > 0
  {
    if n == 0 then 1 else 16 * Pow16(n - 1)
  }

  lemma {:induction false} HexReadsBack(v: nat, n: nat)
    requires v < Pow16(n)
    ensures HexValue(Hex(v, n)) == Some(v)
  {
    if n > 0 {
      HexReadsBack(v / 16, n - 1);
      var s := Hex(v, n);
      assert s[..n - 1] == Hex(v / 16, n - 1) && s[n - 1] == HexDigit(v % 16);
      assert DigitOf(HexDigit(v % 16)) == Some(v % 16);
    }
  }

  /** Letter case does not matter to the value, and the value determines the digits. */
  lemma {:induction false} ValueDetermines(s: string)
    ensures HexValue(Lower(s)) == HexValue(s)
    ensures HexValue(s).Some? ==> HexValue(s).value < Pow16(|s|) && Lower(s) == Hex(HexValue(s).value, |s|)
  {
    if s != "" {
      var front, last := s[..|s| - 1], s[|s| - 1];
      ValueDetermines(front);
      LowerLast(s);
      ValueOfLast(Lower(front), LowerChar(last));
      if HexValue(s).Some? {
        LastDigit(HexValue(front).value, DigitOf(last).value, |front|);
      }
    }
  }

  lemma LowerLast(s: string)
    requires s != ""
    ensures Lower(s) == Lower(s[..|s| - 1]) + [LowerChar(s[|s| - 1])]
  {
  }

  lemma ValueOfLast(front: string, last: char)
    ensures HexValue(front + [last])
         == if HexValue(front).None? || DigitOf(last).None? then None
            else Some(16 * HexValue(front).value + DigitOf(last).value)
  {
    assert (front + [last])[..|front|] == front;
  }

  lemma LastDigit(high: nat, low: nat, n: nat)
    requires low < 16
    ensures Hex(16 * high + low, n + 1) == Hex(high, n) + [HexDigit(low)]
  {
  }

  lemma {:induction false} ZerosInFront(n: nat, s: string)
    ensures HexValue(Zeros(n) + s) == HexValue(s)
  {
    var all := Zeros(n) + s;
    if s != "" {
      assert all[..|all| - 1] == Zeros(n) + s[..|s| - 1];
      ZerosInFront(n, s[..|s| - 1]);
    } else if n > 0 {
      assert all[..n - 1] == Zeros(n - 1) + s;
      ZerosInFront(n - 1, s);
    }
  }

  lemma Pow16Of32()
    ensures Pow16(32) == TWO_TO_128
  {
    assert Pow16(8) == 0x1_0000_0000;
    assert Pow16(16) == 0x1_0000_0000 * Pow16(8);
    assert Pow16(24) == 0x1_0000_0000 * Pow16(16);
    assert Pow16(32) == 0x1_0000_0000 * Pow16(24);
  }

  /** Up to 32 digits have a value exactly when, lower-cased and padded with zeros, they are its printed form. */
  lemma PaddedIsPrinted(digits: string, v: nat)
    requires |digits| <= 32 && v < TWO_TO_128
    ensures HexValue(digits) == Some(v) <==> Zeros(32 - |digits|) + Lower(digits) == Display(v)
  {
    var padded := Zeros(32 - |digits|) + Lower(digits);
    ZerosInFront(32 - |digits|, Lower(digits));
    ValueDetermines(digits);
    ValueDetermines(padded);
    LowerTwice(digits);
    Pow16Of32();
    HexReadsBack(v, 32);
  }

  lemma LowerTwice(digits: string)
    requires |digits| <= 32
    ensures var padded := Zeros(32 - |digits|) + Lower(digits); Lower(padded) == padded
  {
    var padded := Zeros(32 - |digits|) + Lower(digits);
    forall i | 0 <= i < |padded| ensures LowerChar(padded[i]) == padded[i] {
      if i >= 32 - |digits| {
        assert padded[i] == LowerChar(digits[i - (32 - |digits|)]);
      }
    }
  }

  /** Texts of digits are as long in bytes as in characters. */
  lemma {:induction false} Utf8Length(s: string)
    ensures |Utf8(s)| >= |s|
    ensures (forall i :: 0 <= i < |s| ==> s[i] as int < 0x80) ==> |Utf8(s)| == |s|
  {
    Utf8First(s);
    if s != "" {
      Utf8Length(s[1..]);
    }
  }

  lemma {:induction false} DigitsAreAscii(s: string)
    requires HexValue(s).Some?
    ensures forall i :: 0 <= i < |s| ==> DigitOf(s[i]).Some? && s[i] as int < 0x80
  {
    if s != "" {
      DigitsAreAscii(s[..|s| - 1]);
    }
  }

  /**
   Exactly what is parsed: without surrounding space, hyphens and one plus sign there are 1 to 32 digits
   left (the plus sign counts as one), which are, but for letter case and leading zeros, the printed number.
   */
  lemma ParseIsInverseOfDisplay(s: string, v: nat)
    requires v < TWO_TO_128
    ensures var normalized := Normalized(s);
      var digits := Unsigned(normalized);
      ParseHex(s) == Some(v)
      <==> v != 0 && digits != "" && |normalized| <= 32 && Zeros(32 - |digits|) + Lower(digits) == Display(v)
  {
    var normalized := Normalized(s);
    var digits := Unsigned(normalized);
    Utf8Length(normalized);
    if |normalized| <= 32 {
      PaddedIsPrinted(digits, v);
      if HexValue(digits) == Some(v) {
        DigitsAreAscii(digits);
        SignIsAscii(normalized);
      }
    }
  }

  /** Space around an identifier changes nothing. */
  lemma SpaceIgnored(raw: string, s: string)
    requires Padded(raw, s)
    ensures ParseHex(raw) == ParseHex(s)
  {
    SpaceAround(raw, s);
  }

  lemma {:induction false} WithoutSame(s: string, c: char)
    requires c !in s
    ensures Without(s, c) == s
  {
    if s != "" {
      WithoutSame(s[1..], c);
    }
  }

  /** Digits, and digits after a plus sign, are left as they are. */
  lemma DigitsNormalized(digits: string)
    requires digits != "" && HexValue(digits).Some?
    ensures Normalized(digits) == digits && Normalized("+" + digits) == "+" + digits
    ensures |Utf8(digits)| == |digits| && |Utf8("+" + digits)| == |digits| + 1
    ensures Unsigned(digits) == digits && Unsigned("+" + digits) == digits
  {
    DigitsAreAscii(digits);
    Utf8Length(digits);
    var signed := "+" + digits;
    forall i | 0 <= i < |signed| ensures !IsWhitespace(signed[i]) && signed[i] != '-' && signed[i] as int < 0x80 {
      assert i > 0 ==> signed[i] == digits[i - 1] && DigitOf(digits[i - 1]).Some?;
    }
    forall i | 0 <= i < |digits| ensures digits[i] == signed[i + 1] {
    }
    TrimSame(signed);
    TrimSame(digits);
    WithoutSame(signed, '-');
    WithoutSame(digits, '-');
    Utf8Length(signed);
  }

  lemma TrimSame(s: string)
    requires s != "" && Trimmed(s)
    ensures Trim(s) == s
  {
    TrimPadded("", s, "");
    assert "" + s + "" == s;
  }

  /** A plus sign before up to 31 digits changes nothing, and before 32 it is one character too many. */
  lemma PlusSignAccepted(digits: string)
    requires digits != "" && HexValue(digits).Some?
    ensures ParseHex("+" + digits) == if |digits| < 32 then ParseHex(digits) else None
  {
    DigitsNormalized(digits);
  }

  lemma PlusFortyTwo()
    ensures ParseHex("+2a") == Some(42)
  {
    assert HexValue("2") == Some(2) by {
      assert "2"[..0] == "";
    }
    assert "2a"[..1] == "2";
    assert HexValue("2a") == Some(42);
    assert "+" + "2a" == "+2a";
    DigitsNormalized("2a");
    PlusSignAccepted("2a");
  }

  lemma SignIsAscii(normalized: string)
    requires forall i :: 0 <= i < |Unsigned(normalized)| ==> Unsigned(normalized)[i] as int < 0x80
    ensures forall i :: 0 <= i < |normalized| ==> normalized[i] as int < 0x80
  {
    if normalized != "" && normalized[0] == '+' {
      forall i | 0 <= i < |normalized| ensures normalized[i] as int < 0x80 {
        assert i > 0 ==> normalized[i] == Unsigned(normalized)[i - 1];
      }
    }
  }

  lemma {:induction false} WithoutKeeps(s: string, c: char)
    ensures forall i :: 0 <= i < |s| && s[i] != c ==> s[i] in Without(s, c)
  {
    if s != "" {
      WithoutKeeps(s[1..], c);
    }
  }

  /** Every nonzero identifier survives print then parse, under any letter case and any placing of hyphens. */
  lemma PrintedParses(v: nat, text: string)
    requires 0 < v < TWO_TO_128 && Lower(Without(text, '-')) == Display(v)
    ensures ParseHex(text) == Some(v)
  {
    var digits := Without(text, '-');
    assert |digits| == 32 && Zeros(0) + Lower(digits) == Lower(digits);
    PaddedIsPrinted(digits, v);
    DigitsAreAscii(digits);
    WithoutKeeps(text, '-');
    forall i | 0 <= i < |text| ensures !IsWhitespace(text[i]) {
      if text[i] != '-' {
        var k :| 0 <= k < |digits| && digits[k] == text[i];
      }
    }
    assert Unsigned(digits) == digits;
    ParseIsInverseOfDisplay(text, v);
  }

  // ---------- generating ----------

  /** Milliseconds, with times before 1970 taken for zero. */
  function Millis(clock: int): nat {
    if clock < 0 then 0 else clock
  }

  /** The n-th identifier of a process. */
  function Nth(n: nat, clock: int): nat {
    Millis(clock) * TWO_TO_64 + n % TWO_TO_64
  }

  /** The upper half is the clock, zero before 1970; the lower half counts the calls. */
  lemma IdParts(n: nat, clock: int)
    ensures Nth(n, clock) % TWO_TO_64 == n % TWO_TO_64
    ensures if clock <= 0 then Nth(n, clock) < TWO_TO_64 else Nth(n, clock) / TWO_TO_64 == clock
  {
  }

  /** The process-wide counter; each call is one atomic addition. */
  class Generator {
    var counter: nat
    /** What the clock showed at each call so far, and what was returned. */
    ghost var clocks: seq<int>
    ghost var issued: seq<nat>

    ghost predicate Valid()
      reads this
    {
      && counter == |clocks| % TWO_TO_64 && |issued| == |clocks|
      && forall i :: 0 <= i < |clocks| ==> issued[i] == Nth(i, clocks[i])
    }

    constructor ()
      ensures Valid() && clocks == [] && issued == []
    {
      counter, clocks, issued := 0, [], [];
    }

    /** `clock` is the time in milliseconds. */
    method Generate(clock: int) returns (id: nat)
      requires Valid() && clock < 0x8000_0000_0000_0000
      modifies this
      ensures Valid() && clocks == old(clocks) + [clock] && issued == old(issued) + [id]
      ensures id < TWO_TO_128
    {
      var low := counter;
      counter := (counter + 1) % TWO_TO_64;
      id := Millis(clock) * TWO_TO_64 + low;
      clocks, issued := clocks + [clock], issued + [id];
    }
  }

  /** Two identifiers of one process are equal exactly when the clock agrees and the counter has gone full circle. */
  lemma EqualExactlyAfterACircle(i: nat, j: nat, s: int, t: int)
    requires i < j
    ensures Nth(i, s) == Nth(j, t) <==> Millis(s) == Millis(t) && (j - i) % TWO_TO_64 == 0
  {
  }

  /** Up to 2^64 calls give distinct identifiers, whatever the clock does. */
  lemma IdsDistinct(g: Generator)
    requires g.Valid() && |g.clocks| <= TWO_TO_64
    ensures forall i, j :: 0 <= i < j < |g.issued| ==> g.issued[i] != g.issued[j]
  {
    forall i, j | 0 <= i < j < |g.issued| ensures g.issued[i] != g.issued[j] {
      EqualExactlyAfterACircle(i, j, g.clocks[i], g.clocks[j]);
    }
  }

  /** The clock moved on, or it stood still and the counter did not wrap. */
  predicate MovedOn(i: nat, j: nat, s: int, t: int) {
    Millis(s) < Millis(t) || (Millis(s) == Millis(t) && i % TWO_TO_64 < j % TWO_TO_64)
  }

  /** Of two identifiers a process has issued the later is the greater exactly then. */
  lemma GrowsWithTheClock(g: Generator, i: nat, j: nat)
    requires g.Valid() && i < j < |g.issued|
    ensures g.issued[i] < g.issued[j] <==> MovedOn(i, j, g.clocks[i], g.clocks[j])
    ensures j < TWO_TO_64 ==> (g.issued[i] < g.issued[j] <==> Millis(g.clocks[i]) <= Millis(g.clocks[j]))
  {
    GreaterExactly(i, j, g.clocks[i], g.clocks[j]);
  }

  lemma GreaterExactly(i: nat, j: nat, s: int, t: int)
    ensures Nth(i, s) < Nth(j, t) <==> MovedOn(i, j, s, t)
  {
  }

  /** A clock that goes back by a millisecond between two calls makes the second identifier the smaller one. */
  lemma ClockGoesBack()
    ensures Nth(0, 1) > Nth(1, 0)
  {
  }

  /** So does a counter that wraps while the clock stands still. */
  lemma CounterWraps(clock: int)
    ensures Nth(TWO_TO_64 - 1, clock) > Nth(TWO_TO_64, clock)
  {
  }
}
