/**
 SQL identifiers: the parser, the build-time byte validator and the quoting that skips the parser.
 The three are written independently in the source; here they are proved to agree on every string.
 */
module Identifiers {
  import opened Wrappers
  import opened Encoding

  // ---------- the identifier grammar ----------

  predicate IsStart(c: char) {
    c == '_' || 'A' <= c <= 'Z' || 'a' <= c <= 'z'
  }

  predicate IsPart(c: char) {
    IsStart(c) || '0' <= c <= '9'
  }

  /** `[A-Za-z_][A-Za-z0-9_]*` */
  predicate IsIdentifier(s: string) {
    s != "" && IsStart(s[0]) && forall i :: 0 <= i < |s| ==> IsPart(s[i])
  }

  // ---------- parsing ----------

  datatype QualifiedIdentifier =
    | Unqualified(name: string)
    | Qualified(qualifier: string, name: string)

  /** The text before and after the first `sep`, if there is one. */
  function SplitOnce(s: string, sep: char): (r: Option<(string, string)>)
    ensures r.None? <==> sep !in s
    ensures r.Some? ==> s == r.value.0 + [sep] + r.value.1 && sep !in r.value.0
  {
    if s == "" then None
    else if s[0] == sep then Some(("", s[1..]))
    else match SplitOnce(s[1..], sep)
      case None => None
      case Some((a, b)) => Some(([s[0]] + a, b))
  }

  function ParseQualified(s: string): Option<QualifiedIdentifier> {
    match SplitOnce(s, '.')
    case None => if IsIdentifier(s) then Some(Unqualified(s)) else None
    case Some((qualifier, name)) =>
      if IsIdentifier(qualifier) && IsIdentifier(name) then Some(Qualified(qualifier, name)) else None
  }

  predicate IsQualified(s: string) {
    ParseQualified(s).Some?
  }

  function QuotePart(name: string, quote: char): string {
    [quote] + name + [quote]
  }

  function Render(id: QualifiedIdentifier, quote: char): string {
    match id
    case Unqualified(name) => QuotePart(name, quote)
    case Qualified(qualifier, name) => QuotePart(qualifier, quote) + "." + QuotePart(name, quote)
  }

  /** The accepted text, validated and quoted. */
  function QuoteQualified(s: string, quote: char): string
    requires IsQualified(s)
  {
    Render(ParseQualified(s).value, quote)
  }

  // ---------- the build-time validator ----------

  const DOT: byte := 0x2E

  predicate IsStartByte(b: byte) {
    b == 0x5F || 0x41 <= b <= 0x5A || 0x61 <= b <= 0x7A
  }

  predicate IsPartByte(b: byte) {
    IsStartByte(b) || 0x30 <= b <= 0x39
  }

  ghost predicate IdentifierBytes(s: seq<byte>) {
    |s| > 0 && IsStartByte(s[0]) && forall i :: 0 <= i < |s| ==> IsPartByte(s[i])
  }

  /** Two identifiers around a dot at position d. */
  ghost predicate DottedAt(s: seq<byte>, d: int) {
    && 0 < d < |s| - 1 && s[d] == DOT && IsStartByte(s[0]) && IsStartByte(s[d + 1])
    && forall i :: 0 <= i < |s| && i != d ==> IsPartByte(s[i])
  }

  ghost predicate LiteralBytes(s: seq<byte>, qualified: bool) {
    IdentifierBytes(s) || (qualified && exists d :: DottedAt(s, d))
  }

  /** The byte loop that runs at build time; a failed assertion there is `accepted == false` here. */
  method ValidateLiteral(value: string, qualified: bool) returns (accepted: bool)
    ensures accepted <==> if qualified then IsQualified(value) else IsIdentifier(value)
  {
    LiteralBytesAgree(value);
    var bytes := Utf8(value);
    if |bytes| == 0 {
      return false;
    }
    var index, segmentStart, dots := 0, true, 0;
    ghost var dot := 0;
    while index < |bytes|
      invariant 0 <= index <= |bytes| && 0 <= dots <= 1
      invariant dots == 0 ==> (segmentStart <==> index == 0)
      invariant dots == 0 ==> forall i :: 0 <= i < index ==> IsPartByte(bytes[i])
      invariant dots == 1 ==> qualified && 0 < dot < index && bytes[dot] == DOT
      invariant dots == 1 ==> (segmentStart <==> index == dot + 1)
      invariant dots == 1 ==> index > dot + 1 ==> IsStartByte(bytes[dot + 1])
      invariant dots == 1 ==> forall i :: 0 <= i < index && i != dot ==> IsPartByte(bytes[i])
      invariant index > 0 ==> IsStartByte(bytes[0])
    {
      var byte := bytes[index];
      if byte == DOT {
        if !qualified || segmentStart || dots == 1 {
          return false;
        }
        dots, dot, segmentStart := 1, index, true;
      } else if segmentStart {
        if !IsStartByte(byte) {
          return false;
        }
        segmentStart := false;
      } else if !IsPartByte(byte) {
        return false;
      }
      index := index + 1;
    }
    if !segmentStart && dots == 1 {
      assert DottedAt(bytes, dot);
    }
    return !segmentStart;
  }

  /** Bytes below 0x80 come from exactly the characters that are those bytes. */
  lemma {:induction false} AsciiBytes(s: string)
    requires forall i :: 0 <= i < |Utf8(s)| ==> Utf8(s)[i] < 0x80
    ensures |Utf8(s)| == |s| && forall i :: 0 <= i < |s| ==> s[i] as int == Utf8(s)[i]
  {
    Utf8First(s);
    if s != "" {
      var head, tail := Utf8Char(s[0]), Utf8(s[1..]);
      assert head[0] == Utf8(s)[0];
      assert forall i :: 0 <= i < |tail| ==> tail[i] == Utf8(s)[|head| + i];
      AsciiBytes(s[1..]);
    }
  }

  lemma {:induction false} AsciiText(s: string)
    requires forall i :: 0 <= i < |s| ==> s[i] as int < 0x80
    ensures |Utf8(s)| == |s| && forall i :: 0 <= i < |s| ==> s[i] as int == Utf8(s)[i]
  {
    Utf8First(s);
    if s != "" {
      AsciiText(s[1..]);
    }
  }

  lemma {:induction false} SplitOnceUnique(a: string, b: string, sep: char)
    requires sep !in a
    ensures SplitOnce(a + [sep] + b, sep) == Some((a, b))
  {
    var s := a + [sep] + b;
    if a == "" {
      assert s[1..] == b;
    } else {
      assert s[0] in a && [a[0]] + a[1..] == a;
      assert s[1..] == a[1..] + [sep] + b;
      SplitOnceUnique(a[1..], b, sep);
    }
  }

  lemma IdentifierBytesAgree(s: string)
    ensures IdentifierBytes(Utf8(s)) <==> IsIdentifier(s)
  {
    if IdentifierBytes(Utf8(s)) {
      AsciiBytes(s);
    }
    if IsIdentifier(s) {
      AsciiText(s);
    }
  }

  /** The same, of the text. */
  ghost predicate DottedText(s: string, d: int) {
    && 0 < d < |s| - 1 && s[d] == '.' && IsStart(s[0]) && IsStart(s[d + 1])
    && forall i :: 0 <= i < |s| && i != d ==> IsPart(s[i])
  }

  lemma DottedAgree(s: string, d: int)
    ensures DottedAt(Utf8(s), d) <==> DottedText(s, d)
  {
    if DottedAt(Utf8(s), d) {
      AsciiBytes(s);
    }
    if DottedText(s, d) {
      AsciiText(s);
    }
  }

  lemma DottedIsQualified(s: string, d: int)
    requires DottedText(s, d)
    ensures IsQualified(s)
  {
    var a, b := s[..d], s[d + 1..];
    assert IsIdentifier(a);
    assert IsIdentifier(b) by {
      assert forall i :: 0 <= i < |b| ==> b[i] == s[d + 1 + i];
    }
    assert s == a + "." + b;
    SplitOnceUnique(a, b, '.');
  }

  lemma QualifiedIsLiteral(s: string)
    requires IsQualified(s)
    ensures LiteralBytes(Utf8(s), true)
  {
    match SplitOnce(s, '.')
    case None =>
      IdentifierBytesAgree(s);
    case Some((a, b)) =>
      DottedAgree(s, |a|);
  }

  lemma LiteralBytesAgree(s: string)
    ensures LiteralBytes(Utf8(s), false) <==> IsIdentifier(s)
    ensures LiteralBytes(Utf8(s), true) <==> IsQualified(s)
  {
    IdentifierBytesAgree(s);
    if IsQualified(s) {
      QualifiedIsLiteral(s);
    } else if exists d :: DottedAt(Utf8(s), d) {
      var d :| DottedAt(Utf8(s), d);
      DottedAgree(s, d);
      DottedIsQualified(s, d);
    }
  }

  // ---------- quoting without parsing ----------

  function SplitAll(s: string, sep: char): (parts: seq<string>)
    ensures |parts| >= 1
  {
    if s == "" then [""]
    else
      var rest := SplitAll(s[1..], sep);
      if s[0] == sep then [""] + rest else [[s[0]] + rest[0]] + rest[1..]
  }

  function Join(parts: seq<string>, sep: string): string
    requires |parts| >= 1
  {
    if |parts| == 1 then parts[0] else parts[0] + sep + Join(parts[1..], sep)
  }

  function QuoteAll(parts: seq<string>, quote: char): seq<string> {
    seq(|parts|, i requires 0 <= i < |parts| => QuotePart(parts[i], quote))
  }

  /** What `__from_validated_literal` and `__from_validated_owned` store. */
  function QuoteBySplitting(s: string, quote: char): string {
    Join(QuoteAll(SplitAll(s, '.'), quote), ".")
  }

  lemma {:induction false} SplitAllPrefix(a: string, b: string, sep: char)
    requires sep !in a
    ensures SplitAll(a, sep) == [a]
    ensures SplitAll(a + [sep] + b, sep) == [a] + SplitAll(b, sep)
  {
    if a == "" {
      assert a + [sep] + b == [sep] + b;
      assert ([sep] + b)[1..] == b;
    } else {
      assert a[0] in a;
      assert (a + [sep] + b)[1..] == a[1..] + [sep] + b;
      SplitAllPrefix(a[1..], b, sep);
      assert [a[0]] + a[1..] == a;
    }
  }

  lemma {:induction false} PartsWithout(s: string, sep: char)
    ensures forall i :: 0 <= i < |SplitAll(s, sep)| ==> sep !in SplitAll(s, sep)[i]
  {
    if s != "" {
      PartsWithout(s[1..], sep);
    }
  }

  lemma JoinWithFirst(c: char, rest: seq<string>, sep: string)
    requires rest != []
    ensures Join([[c] + rest[0]] + rest[1..], sep) == [c] + Join(rest, sep)
    ensures Join([""] + rest, sep) == sep + Join(rest, sep)
  {
    var longer := [[c] + rest[0]] + rest[1..];
    assert ([""] + rest)[1..] == rest;
    if |rest| > 1 {
      assert longer[1..] == rest[1..] && longer[0] == [c] + rest[0];
      var others := Join(rest[1..], sep);
      assert [c] + rest[0] + sep + others == [c] + (rest[0] + sep + others);
    }
  }

  /** Splitting loses nothing. */
  lemma {:induction false} JoinSplit(s: string, sep: char)
    ensures Join(SplitAll(s, sep), [sep]) == s
  {
    if s != "" {
      JoinSplit(s[1..], sep);
      JoinWithFirst(s[0], SplitAll(s[1..], sep), [sep]);
      assert s == [s[0]] + s[1..];
    }
  }

  lemma {:induction false} JoinAppend(parts: seq<string>, last: string, sep: string)
    requires parts != []
    ensures Join(parts + [last], sep) == Join(parts, sep) + sep + last
  {
    if |parts| == 1 {
      assert (parts + [last])[1..] == [last];
    } else {
      assert (parts + [last])[1..] == parts[1..] + [last];
      JoinAppend(parts[1..], last, sep);
      var rest := Join(parts[1..], sep);
      assert parts[0] + sep + (rest + sep + last) == parts[0] + sep + rest + sep + last;
    }
  }

  /** Parts without the separator are what joining them splits into. */
  lemma {:induction false} SplitJoin(parts: seq<string>, sep: char)
    requires parts != [] && forall i :: 0 <= i < |parts| ==> sep !in parts[i]
    ensures SplitAll(Join(parts, [sep]), sep) == parts
  {
    if |parts| == 1 {
      SplitAllPrefix(parts[0], "", sep);
    } else {
      SplitJoin(parts[1..], sep);
      SplitAllPrefix(parts[0], Join(parts[1..], [sep]), sep);
      assert parts == [parts[0]] + parts[1..];
    }
  }

  lemma SplittingAgrees(s: string, quote: char)
    requires IsQualified(s)
    ensures QuoteBySplitting(s, quote) == QuoteQualified(s, quote)
  {
    match SplitOnce(s, '.')
    case None =>
      SplitAllPrefix(s, "", '.');
    case Some((a, b)) =>
      SplitAllPrefix(a, b, '.');
      SplitAllPrefix(b, "", '.');
      var quoted := QuoteAll(SplitAll(s, '.'), quote);
      assert quoted == [QuotePart(a, quote), QuotePart(b, quote)];
      assert quoted[1..] == [QuotePart(b, quote)];
      assert Join(quoted, ".") == quoted[0] + "." + Join(quoted[1..], ".");
  }

  /** Reads one quoted name off the front: the name and what follows it. */
  function ReadQuoted(text: string, quote: char): Option<(string, string)> {
    if text == "" || text[0] != quote then None else SplitOnce(text[1..], quote)
  }

  /** Reads a quoted, possibly qualified name back to the unquoted text. */
  function Unquote(text: string, quote: char): Option<string> {
    match ReadQuoted(text, quote)
    case None => None
    case Some((first, rest)) =>
      if rest == "" then Some(first)
      else if rest[0] != '.' then None
      else match ReadQuoted(rest[1..], quote)
        case None => None
        case Some((second, tail)) => if tail == "" then Some(first + "." + second) else None
  }

  lemma ReadQuotedPart(name: string, quote: char, rest: string)
    requires quote !in name
    ensures ReadQuoted(QuotePart(name, quote) + rest, quote) == Some((name, rest))
  {
    var text := QuotePart(name, quote) + rest;
    assert text[1..] == name + [quote] + rest;
    SplitOnceUnique(name, rest, quote);
  }

  /** Quoting loses nothing: the quoted text reads back to the accepted text. */
  lemma QuotingReadsBack(s: string, quote: char)
    requires IsQualified(s) && !IsPart(quote)
    ensures Unquote(QuoteQualified(s, quote), quote) == Some(s)
  {
    var text := QuoteQualified(s, quote);
    match ParseQualified(s).value
    case Unqualified(name) =>
      ReadQuotedPart(name, quote, "");
      assert text == text + "";
    case Qualified(qualifier, name) =>
      var tail := "." + QuotePart(name, quote);
      assert text == QuotePart(qualifier, quote) + tail;
      ReadQuotedPart(qualifier, quote, tail);
      ReadQuotedPart(name, quote, "");
      assert tail[1..] == QuotePart(name, quote) + "";
      assert s == qualifier + "." + name;
  }
}
