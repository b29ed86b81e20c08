/** Bytes and the UTF-8 encoding (section 3 of RFC 3629). */
module Encoding {
  type byte = b: int | 0 <= b < 256

  /** The UTF-8 encoding of one scalar value. */
  function Utf8Char(c: char): (r: seq<byte>)
    ensures c as int < 0x80 ==> r == [c as int]
    ensures c as int >= 0x80 ==> |r| >= 2 && forall i :: 0 <= i < |r| ==> r[i] >= 0x80
  {
    var n := c as int;
    if n < 0x80 then [n]
    else if n < 0x800 then [0xC0 + n / 0x40, 0x80 + n % 0x40]
    else if n < 0x1_0000 then [0xE0 + n / 0x1000, 0x80 + n / 0x40 % 0x40, 0x80 + n % 0x40]
    else [0xF0 + n / 0x4_0000, 0x80 + n / 0x1000 % 0x40, 0x80 + n / 0x40 % 0x40, 0x80 + n % 0x40]
  }

  function Joined(pieces: seq<seq<byte>>): seq<byte> {
    if pieces == [] then [] else pieces[0] + Joined(pieces[1..])
  }

  function Utf8(s: string): seq<byte> {
    Joined(seq(|s|, i requires 0 <= i < |s| => Utf8Char(s[i])))
  }

  /** The bytes of a text are those of its first character and those of the rest. */
  lemma Utf8First(s: string)
    ensures s == "" ==> Utf8(s) == []
    ensures s != "" ==> Utf8(s) == Utf8Char(s[0]) + Utf8(s[1..])
  {
    if s != "" {
      var rest := s[1..];
      assert seq(|s|, i requires 0 <= i < |s| => Utf8Char(s[i]))[1..]
          == seq(|rest|, i requires 0 <= i < |rest| => Utf8Char(rest[i]));
    }
  }

  lemma {:induction false} JoinedConcat(a: seq<seq<byte>>, b: seq<seq<byte>>)
    ensures Joined(a + b) == Joined(a) + Joined(b)
  {
    if a == [] {
      assert a + b == b;
    } else {
      assert (a + b)[1..] == a[1..] + b;
      JoinedConcat(a[1..], b);
    }
  }

  lemma Utf8Concat(a: string, b: string)
    ensures Utf8(a + b) == Utf8(a) + Utf8(b)
  {
    var x := seq(|a|, i requires 0 <= i < |a| => Utf8Char(a[i]));
    var y := seq(|b|, i requires 0 <= i < |b| => Utf8Char(b[i]));
    assert seq(|a + b|, i requires 0 <= i < |a + b| => Utf8Char((a + b)[i])) == x + y;
    JoinedConcat(x, y);
  }
}

/** Letter case and surrounding space. */
module Text {
  function LowerChar(c: char): char {
    if 'A' <= c <= 'Z' then 'a' + (c as int - 'A' as int) as char else c
  }

  function Lower(s: string): (r: string)
    ensures |r| == |s|
  {
    seq(|s|, i requires 0 <= i < |s| => LowerChar(s[i]))
  }

  /** Characters with the Unicode property White_Space. */
  predicate IsWhitespace(c: char) {
    var n := c as int;
    0x09 <= n <= 0x0D || n == 0x20 || n == 0x85 || n == 0xA0 || n == 0x1680 || 0x2000 <= n <= 0x200A
    || n == 0x2028 || n == 0x2029 || n == 0x202F || n == 0x205F || n == 0x3000
  }

  /** The same as a list. */
  lemma WhitespaceTable(c: char)
    ensures IsWhitespace(c) <==> c as int in [
      0x09, 0x0A, 0x0B, 0x0C, 0x0D, 0x20, 0x85, 0xA0, 0x1680, 0x2000, 0x2001, 0x2002, 0x2003, 0x2004, 0x2005, 0x2006,
      0x2007, 0x2008, 0x2009, 0x200A, 0x2028, 0x2029, 0x202F, 0x205F, 0x3000]
  {
  }

  function TrimStart(s: string): string {
    if s != "" && IsWhitespace(s[0]) then TrimStart(s[1..]) else s
  }

  function TrimEnd(s: string): string {
    if s != "" && IsWhitespace(s[|s| - 1]) then TrimEnd(s[..|s| - 1]) else s
  }

  function Trim(s: string): string {
    TrimEnd(TrimStart(s))
  }

  /** No space at either end. */
  predicate Trimmed(s: string) {
    s != "" ==> !IsWhitespace(s[0]) && !IsWhitespace(s[|s| - 1])
  }

  predicate IsBlank(s: string) {
    forall i :: 0 <= i < |s| ==> IsWhitespace(s[i])
  }

  lemma {:induction false} TrimEndKeeps(s: string)
    ensures TrimEnd(s) <= s && (TrimEnd(s) != "" ==> !IsWhitespace(TrimEnd(s)[|TrimEnd(s)| - 1]))
  {
    if s != "" && IsWhitespace(s[|s| - 1]) {
      TrimEndKeeps(s[..|s| - 1]);
    }
  }

  lemma {:induction false} TrimStartKeeps(s: string)
    ensures TrimStart(s) != "" ==> !IsWhitespace(TrimStart(s)[0])
    ensures forall c :: c in TrimStart(s) ==> c in s
  {
    if s != "" && IsWhitespace(s[0]) {
      TrimStartKeeps(s[1..]);
    }
  }

  lemma TrimTrims(s: string)
    ensures Trimmed(Trim(s)) && forall c :: c in Trim(s) ==> c in s
  {
    TrimStartKeeps(s);
    TrimEndKeeps(TrimStart(s));
  }

  /** Space around a text that has none itself is all that trimming removes. */
  lemma {:induction false} TrimPadded(before: string, s: string, after: string)
    requires IsBlank(before) && IsBlank(after) && s != "" && Trimmed(s)
    ensures Trim(before + s + after) == s
    decreases |before|
  {
    if before == "" {
      TrimEndPadded(s, after);
      assert before + s + after == s + after && (s + after)[0] == s[0];
    } else {
      assert (before + s + after)[0] == before[0] && (before + s + after)[1..] == before[1..] + s + after;
      TrimPadded(before[1..], s, after);
    }
  }

  lemma {:induction false} TrimEndPadded(s: string, after: string)
    requires IsBlank(after) && s != "" && Trimmed(s)
    ensures TrimEnd(s + after) == s
    decreases |after|
  {
    if after == "" {
      assert s + after == s;
    } else {
      var n := |after| - 1;
      assert (s + after)[|s + after| - 1] == after[n] && (s + after)[..|s + after| - 1] == s + after[..n];
      TrimEndPadded(s, after[..n]);
    }
  }

  /** A text with space around it. */
  ghost predicate Padded(raw: string, s: string) {
    exists before, after :: IsBlank(before) && IsBlank(after) && raw == before + s + after
  }

  lemma {:induction false} StartSplits(s: string) returns (before: string)
    ensures IsBlank(before) && s == before + TrimStart(s)
  {
    if s != "" && IsWhitespace(s[0]) {
      var rest := StartSplits(s[1..]);
      before := [s[0]] + rest;
      assert s == [s[0]] + s[1..];
    } else {
      before := "";
    }
  }

  lemma {:induction false} EndSplits(s: string) returns (after: string)
    ensures IsBlank(after) && s == TrimEnd(s) + after
  {
    if s != "" && IsWhitespace(s[|s| - 1]) {
      var front := EndSplits(s[..|s| - 1]);
      after := front + [s[|s| - 1]];
      assert s == s[..|s| - 1] + [s[|s| - 1]];
    } else {
      after := "";
    }
  }

  lemma {:induction false} BlankTrims(s: string)
    requires IsBlank(s)
    ensures Trim(s) == ""
  {
    if s != "" {
      BlankTrims(s[1..]);
    }
  }

  /** Trimming takes off exactly the space around a text. */
  lemma TrimExactly(raw: string, s: string)
    requires Trimmed(s)
    ensures Trim(raw) == s <==> Padded(raw, s)
  {
    if Trim(raw) == s {
      var before := StartSplits(raw);
      var after := EndSplits(TrimStart(raw));
      assert raw == before + s + after;
    }
    if Padded(raw, s) {
      var before, after :| IsBlank(before) && IsBlank(after) && raw == before + s + after;
      if s == "" {
        BlankTrims(raw);
      } else {
        TrimPadded(before, s, after);
      }
    }
  }

  /** Only space around nothing. */
  lemma BlankExactly(raw: string)
    ensures Trim(raw) == "" <==> IsBlank(raw)
  {
    TrimExactly(raw, "");
    if IsBlank(raw) {
      assert raw == "" + "" + raw;
    }
  }

  lemma PaddedTwice(a: string, c: string, s: string, d: string, b: string)
    requires IsBlank(a) && IsBlank(b) && IsBlank(c) && IsBlank(d)
    ensures Padded(a + (c + s + d) + b, s)
  {
    assert IsBlank(a + c) && IsBlank(d + b);
    assert a + (c + s + d) + b == (a + c) + s + (d + b);
  }

  /** More space around a text makes no difference. */
  lemma SpaceAround(raw: string, s: string)
    requires Padded(raw, s)
    ensures Trim(raw) == Trim(s)
  {
    TrimTrims(s);
    TrimExactly(s, Trim(s));
    var a, b :| IsBlank(a) && IsBlank(b) && raw == a + s + b;
    var c, d :| IsBlank(c) && IsBlank(d) && s == c + Trim(s) + d;
    PaddedTwice(a, c, Trim(s), d, b);
    TrimExactly(raw, Trim(s));
  }
}
