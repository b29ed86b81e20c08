/**
 The multipart/form-data printer, and an independent reader of what it prints
 (section 5.1.1 of RFC 2046, section 4 of RFC 7578).
 */
module MultipartText {
  import opened Wrappers
  import opened Encoding

  type Bytes = seq<byte>

  const CR: byte := 0x0D
  const QUOTE: byte := 0x22
  const DASH: byte := 0x2D
  const CRLF: Bytes := [0x0D, 0x0A]

  // ---------- splitting at a separator ----------

  predicate Contains(s: Bytes, d: Bytes)
    decreases |s|
  {
    d <= s || (s != [] && Contains(s[1..], d))
  }

  /** The pieces of `s` between the occurrences of `d`, from the left. */
  function Split(s: Bytes, d: Bytes): (pieces: seq<Bytes>)
    requires d != []
    ensures |pieces| >= 1 && pieces[0] <= s
    decreases |s|
  {
    if d <= s then [[]] + Split(s[|d|..], d)
    else if s == [] then [[]]
    else
      Grown(s[0], Split(s[1..], d))
  }

  /** The pieces with one more byte in front of the first. */
  function Grown(b: byte, pieces: seq<Bytes>): seq<Bytes>
    requires pieces != []
  {
    [[b] + pieces[0]] + pieces[1..]
  }

  /** What comes before and after the first `d`, if there is one. */
  function Cut(s: Bytes, d: Bytes): (r: Option<(Bytes, Bytes)>)
    requires d != []
    ensures r.Some? ==> s == r.value.0 + d + r.value.1
    decreases |s|
  {
    if d <= s then Some(([], s[|d|..]))
    else if s == [] then None
    else match Cut(s[1..], d)
      case None => None
      case Some((a, b)) => Some(([s[0]] + a, b))
  }

  /** A separator whose first byte comes nowhere else in it cannot overlap itself. */
  predicate IsSeparator(d: Bytes) {
    d != [] && d[0] !in d[1..]
  }

  lemma NoOverlap(a: Bytes, t: Bytes, d: Bytes)
    requires IsSeparator(d) && a != [] && d <= t && !(d <= a)
    ensures !(d <= a + t)
  {
    if |a| < |d| {
      assert (a + t)[|a|] == t[0] == d[0];
      assert d[|a|] == d[1..][|a| - 1];
    } else {
      assert (a + t)[..|d|] == a[..|d|];
    }
  }

  /** Splitting goes on afresh where a separator begins. */
  lemma {:induction false} SplitConcat(a: Bytes, t: Bytes, d: Bytes)
    requires IsSeparator(d) && d <= t
    ensures Split(a + t, d) == Split(a, d) + Split(t, d)[1..]
    decreases |a|
  {
    if a == [] {
      assert a + t == t;
    } else if d <= a {
      assert d <= a + t && (a + t)[|d|..] == a[|d|..] + t;
      SplitConcat(a[|d|..], t, d);
      EmptyFirst(Split(a[|d|..], d), Split(t, d)[1..]);
    } else {
      NoOverlap(a, t, d);
      assert (a + t)[0] == a[0] && (a + t)[1..] == a[1..] + t;
      SplitConcat(a[1..], t, d);
      FirstGrows(a[0], Split(a[1..], d), Split(t, d)[1..]);
    }
  }

  lemma EmptyFirst(p: seq<Bytes>, q: seq<Bytes>)
    ensures [[]] + (p + q) == [[]] + p + q
  {
  }

  lemma FirstGrows(b: byte, p: seq<Bytes>, q: seq<Bytes>)
    requires p != []
    ensures Grown(b, p + q) == Grown(b, p) + q
  {
  }

  lemma SplitAtSeparator(a: Bytes, last: Bytes, d: Bytes)
    requires IsSeparator(d) && !Contains(last, d)
    ensures Split(a + (d + last), d) == Split(a, d) + [last]
  {
    SplitConcat(a, d + last, d);
    SplitAbsent(last, d);
    assert (d + last)[|d|..] == last;
    assert Split(d + last, d) == [[]] + [last];
  }

  lemma {:induction false} SplitAbsent(a: Bytes, d: Bytes)
    requires d != [] && !Contains(a, d)
    ensures Split(a, d) == [a]
  {
    if a != [] {
      SplitAbsent(a[1..], d);
      assert [a[0]] + a[1..] == a;
    }
  }

  lemma SplitOneMore(a: Bytes, last: Bytes, d: Bytes, pieces: seq<Bytes>)
    requires IsSeparator(d) && !Contains(last, d) && Split(a, d) == [[]] + pieces
    ensures Split(a + (d + last), d) == [[]] + (pieces + [last])
  {
    SplitAtSeparator(a, last, d);
  }

  /** No piece contains the separator. */
  lemma {:induction false} PiecesAreClean(s: Bytes, d: Bytes, i: nat)
    requires d != [] && i < |Split(s, d)|
    ensures !Contains(Split(s, d)[i], d)
    decreases |s|
  {
    if d <= s {
      if i > 0 {
        PiecesAreClean(s[|d|..], d, i - 1);
      }
    } else if s != [] {
      PiecesAreClean(s[1..], d, i);
      if i == 0 {
        var piece := Split(s, d)[0];
        assert piece[1..] == Split(s[1..], d)[0];
        assert piece <= s && !(d <= piece);
      }
    }
  }

  lemma {:induction false} ShortIsClean(s: Bytes, d: Bytes)
    requires |s| < |d|
    ensures !Contains(s, d)
  {
    if s != [] {
      ShortIsClean(s[1..], d);
    }
  }

  lemma {:induction false} CutHere(a: Bytes, d: Bytes, rest: Bytes)
    requires d != [] && d[0] !in a
    ensures Cut(a + d + rest, d) == Some((a, rest))
  {
    var s := a + d + rest;
    if a == [] {
      assert s == d + rest && s[|d|..] == rest;
    } else {
      assert s[0] == a[0] && s[1..] == a[1..] + d + rest;
      CutHere(a[1..], d, rest);
      assert [a[0]] + a[1..] == a;
    }
  }

  /** A stretch without the separator's first byte hides no separator. */
  lemma {:induction false} SkipStretch(a: Bytes, s: Bytes, d: Bytes)
    requires d != [] && d[0] !in a
    ensures Contains(a + s, d) <==> Contains(s, d)
  {
    if a == [] {
      assert a + s == s;
    } else {
      assert (a + s)[0] == a[0] && (a + s)[1..] == a[1..] + s;
      SkipStretch(a[1..], s, d);
    }
  }

  lemma {:induction false} SuffixContained(a: Bytes, s: Bytes, d: Bytes)
    requires Contains(s, d)
    ensures Contains(a + s, d)
  {
    if a == [] {
      assert a + s == s;
    } else {
      assert (a + s)[1..] == a[1..] + s;
      SuffixContained(a[1..], s, d);
    }
  }

  /** Containing a text is containing its tail too. */
  lemma {:induction false} TailContained(s: Bytes, p: Bytes, d: Bytes)
    requires Contains(s, p + d)
    ensures Contains(s, d) && (s != [] && p != [] ==> Contains(s[1..], d))
  {
    if p + d <= s {
      assert s == p + (d + s[|p + d|..]);
      SuffixContained(p, d + s[|p + d|..], d);
      if p != [] {
        assert s[1..] == p[1..] + (d + s[|p + d|..]);
        SuffixContained(p[1..], d + s[|p + d|..], d);
      }
    } else {
      TailContained(s[1..], p, d);
      SuffixContained([s[0]], s[1..], d);
      assert [s[0]] + s[1..] == s;
    }
  }

  // ---------- UTF-8 ----------

  /** A byte below 0x80 stands for its own character. */
  lemma {:induction false} AsciiComesFromText(s: string, c: char)
    requires c as int < 0x80 && c as int in Utf8(s)
    ensures c in s
  {
    Utf8First(s);
    if s != "" {
      if c as int in Utf8(s[1..]) {
        AsciiComesFromText(s[1..], c);
      }
    }
  }

  /** Encodings of two characters differ before either of them ends. */
  lemma CharDecodes(a: char, b: char, x: Bytes, y: Bytes)
    requires Utf8Char(a) + x == Utf8Char(b) + y
    ensures a == b && x == y
  {
    var s := Utf8Char(a) + x;
    assert s[0] == Utf8Char(a)[0] && s[0] == Utf8Char(b)[0];
    var n := |Utf8Char(a)|;
    assert Utf8Char(a) == s[..n] == Utf8Char(b);
    CodePointOfChar(a);
    CodePointOfChar(b);
    assert x == s[n..] && y == s[n..];
  }

  /** The code point an encoding stands for. */
  function CodePoint(r: seq<int>): int {
    if |r| == 1 then r[0]
    else if |r| == 2 then (r[0] - 0xC0) * 0x40 + (r[1] - 0x80)
    else if |r| == 3 then (r[0] - 0xE0) * 0x1000 + (r[1] - 0x80) * 0x40 + (r[2] - 0x80)
    else if |r| == 4 then (r[0] - 0xF0) * 0x4_0000 + (r[1] - 0x80) * 0x1000 + (r[2] - 0x80) * 0x40 + (r[3] - 0x80)
    else 0
  }

  lemma Digits(n: nat)
    ensures n / 0x40 * 0x40 + n % 0x40 == n
    ensures n / 0x1000 * 0x1000 + n / 0x40 % 0x40 * 0x40 + n % 0x40 == n
    ensures n / 0x4_0000 * 0x4_0000 + n / 0x1000 % 0x40 * 0x1000 + n / 0x40 % 0x40 * 0x40 + n % 0x40 == n
  {
    assert n / 0x40 / 0x40 == n / 0x1000;
    assert n / 0x1000 / 0x40 == n / 0x4_0000;
  }

  lemma CodePointOfChar(c: char)
    ensures CodePoint(Utf8Char(c)) == c as int
  {
    Digits(c as int);
  }

  /** Two texts with the same encoding are the same text. */
  lemma {:induction false} Utf8Injective(s: string, t: string)
    requires Utf8(s) == Utf8(t)
    ensures s == t
  {
    Utf8First(s);
    Utf8First(t);
    if s != "" && t != "" {
      CharDecodes(s[0], t[0], Utf8(s[1..]), Utf8(t[1..]));
      Utf8Injective(s[1..], t[1..]);
      assert s == [s[0]] + s[1..] && t == [t[0]] + t[1..];
    }
  }
}

/** Building a form in memory, and reading it back. */
module Multipart {
  import opened Wrappers
  import opened Encoding
  import opened MultipartText
  import Sequences

  // ---------- what the checks admit ----------

  /** Unicode control characters (category Cc). */
  predicate IsControl(c: char) {
    c as int < 0x20 || 0x7F <= c as int < 0xA0
  }

  predicate IsToken(value: string) {
    value != "" && forall c :: c in value ==> !(IsControl(c) || c == '"' || c == '\\' || c == '\r' || c == '\n')
  }

  predicate IsValue(value: string) {
    forall c :: c in value ==> !(c == '\r' || c == '\n' || IsControl(c))
  }

  // ---------- what they admit, byte by byte ----------

  /** No control character in UTF-8: none below 0x20, not 0x7F, and no 0xC2 before a byte below 0xA0. */
  ghost predicate NoControlBytes(bs: Bytes) {
    forall i :: 0 <= i < |bs| ==>
      bs[i] >= 0x20 && bs[i] != 0x7F && (bs[i] == 0xC2 && i + 1 < |bs| ==> bs[i + 1] >= 0xA0)
  }

  lemma CharControl(c: char)
    ensures IsControl(c) <==> !NoControlBytes(Utf8Char(c))
    ensures Utf8Char(c)[|Utf8Char(c)| - 1] != 0xC2
  {
    var bs := Utf8Char(c);
    if IsControl(c) {
      assert bs[0] < 0x20 || bs[0] == 0x7F || (bs[0] == 0xC2 && bs[1] < 0xA0);
    }
  }

  lemma NoControlJoined(a: Bytes, b: Bytes)
    requires a != [] && a[|a| - 1] != 0xC2
    ensures NoControlBytes(a + b) <==> NoControlBytes(a) && NoControlBytes(b)
  {
    assert forall i :: 0 <= i < |a| ==> (a + b)[i] == a[i];
    assert forall i :: 0 <= i < |b| ==> (a + b)[|a| + i] == b[i];
    forall i | 0 <= i < |b| && NoControlBytes(a + b)
      ensures b[i] >= 0x20 && b[i] != 0x7F && (b[i] == 0xC2 && i + 1 < |b| ==> b[i + 1] >= 0xA0)
    {
      assert (a + b)[|a| + i] == b[i] && (i + 1 < |b| ==> (a + b)[|a| + i + 1] == b[i + 1]);
    }
  }

  /** A value is taken exactly if its bytes hold no control character. */
  lemma {:induction false} ValueBytes(value: string)
    ensures IsValue(value) <==> NoControlBytes(Utf8(value))
  {
    Utf8First(value);
    if value != "" {
      ValueBytes(value[1..]);
      CharControl(value[0]);
      NoControlJoined(Utf8Char(value[0]), Utf8(value[1..]));
      assert IsValue(value) <==> !IsControl(value[0]) && IsValue(value[1..]) by {
        assert forall c :: c in value <==> c == value[0] || c in value[1..];
      }
    }
  }

  /** A token is a value that is not empty, and has neither quotes nor backslashes. */
  lemma TokenExactly(value: string)
    ensures IsToken(value)
       <==> value != "" && NoControlBytes(Utf8(value)) && 0x22 !in Utf8(value) && 0x5C !in Utf8(value)
  {
    ValueBytes(value);
    AsciiExactly(value, '"');
    AsciiExactly(value, '\\');
  }

  lemma {:induction false} AsciiExactly(s: string, c: char)
    requires c as int < 0x80
    ensures c as int in Utf8(s) <==> c in s
  {
    if c as int in Utf8(s) {
      AsciiComesFromText(s, c);
    }
    Utf8First(s);
    if s != "" {
      AsciiExactly(s[1..], c);
    }
  }

  datatype Part =
    | TextPart(name: string, value: string)
    | FilePart(name: string, filename: string, contentType: string, bytes: Bytes)

  predicate Accepted(p: Part) {
    match p
    case TextPart(name, value) => IsToken(name) && IsValue(value)
    case FilePart(name, filename, contentType, _) => IsToken(name) && IsToken(filename) && IsToken(contentType)
  }

  ghost predicate AllAccepted(parts: seq<Part>) {
    forall p :: p in parts ==> Accepted(p)
  }

  /** A random identifier as it is printed: hexadecimal digits and hyphens. */
  predicate IsUuid(s: string) {
    |s| == 36 && forall c :: c in s ==> '0' <= c <= '9' || 'a' <= c <= 'f' || c == '-'
  }

  // ---------- the printed form ----------

  const DISPOSITION := "Content-Disposition: form-data; name=\""
  const FILENAME := "; filename=\""
  const CONTENT_TYPE := "Content-Type: "
  const FORM_DATA := "multipart/form-data; boundary="

  function Line(line: string): Bytes {
    Utf8(line) + CRLF
  }

  function Disposition(p: Part): string {
    if p.TextPart? then DISPOSITION + p.name + "\"" else DISPOSITION + p.name + "\"" + FILENAME + p.filename + "\""
  }

  function Content(p: Part): Bytes {
    if p.TextPart? then Utf8(p.value) else p.bytes
  }

  /** What `text` and `file` append. */
  function Printed(boundary: string, p: Part): Bytes {
    if p.TextPart? then
      Line("--" + boundary) + Line(Disposition(p)) + Line("") + Line(p.value)
    else
      Line("--" + boundary) + Line(Disposition(p)) + Line(CONTENT_TYPE + p.contentType) + Line("") + p.bytes + CRLF
  }

  function Body(boundary: string, parts: seq<Part>): Bytes {
    if parts == [] then [] else Body(boundary, parts[..|parts| - 1]) + Printed(boundary, parts[|parts| - 1])
  }

  function Finished(boundary: string, parts: seq<Part>): Bytes {
    Body(boundary, parts) + Line("--" + boundary + "--")
  }

  class Form {
    const boundary: string
    var body: Bytes
    var closed: bool
    /** The parts accepted so far. */
    ghost var parts: seq<Part>

    ghost predicate Valid()
      reads this
    {
      && body == (if closed then Finished(boundary, parts) else Body(boundary, parts))
      && AllAccepted(parts)
    }

    constructor (uuid: string)
      requires IsUuid(uuid)
      ensures Valid() && boundary == "feishu-" + uuid && parts == [] && !closed
    {
      boundary := "feishu-" + uuid;
      body, closed, parts := [], false, [];
    }

    method PushLine(line: string)
      modifies `body
      ensures body == old(body) + Line(line)
    {
      body := body + Utf8(line);
      body := body + CRLF;
    }

    method Text(name: string, value: string) returns (ok: bool)
      requires Valid()
      modifies this
      ensures Valid() && closed == old(closed)
      ensures ok <==> !old(closed) && Accepted(TextPart(name, value))
      ensures parts == if ok then old(parts) + [TextPart(name, value)] else old(parts)
      ensures !ok ==> body == old(body)
    {
      if closed || !IsToken(name) || !IsValue(value) {
        return false;
      }
      ghost var p := TextPart(name, value);
      PushLine("--" + boundary);
      PushLine(DISPOSITION + name + "\"");
      PushLine("");
      PushLine(value);
      TextAdded(boundary, parts, name, value);
      parts := parts + [p];
      return true;
    }

    method File(name: string, filename: string, contentType: string, bytes: Bytes) returns (ok: bool)
      requires Valid()
      modifies this
      ensures Valid() && closed == old(closed)
      ensures ok <==> !old(closed) && Accepted(FilePart(name, filename, contentType, bytes))
      ensures parts == if ok then old(parts) + [FilePart(name, filename, contentType, bytes)] else old(parts)
      ensures !ok ==> body == old(body)
    {
      if closed || !IsToken(name) || !IsToken(filename) || !IsToken(contentType) {
        return false;
      }
      ghost var p := FilePart(name, filename, contentType, bytes);
      PushLine("--" + boundary);
      PushLine(DISPOSITION + name + "\"" + FILENAME + filename + "\"");
      PushLine(CONTENT_TYPE + contentType);
      PushLine("");
      body := body + bytes;
      body := body + CRLF;
      FileAdded(boundary, parts, name, filename, contentType, bytes);
      parts := parts + [p];
      return true;
    }

    /** Consumes the form: the `Content-Type` and the body. */
    method Finish() returns (contentType: string, finished: Bytes)
      requires Valid() && !closed
      modifies this
      ensures Valid() && closed && parts == old(parts)
      ensures contentType == FORM_DATA + boundary && finished == Finished(boundary, parts)
    {
      closed := true;
      PushLine("--" + boundary + "--");
      return FORM_DATA + boundary, body;
    }
  }

  lemma TextAdded(boundary: string, parts: seq<Part>, name: string, value: string)
    requires AllAccepted(parts) && Accepted(TextPart(name, value))
    ensures AllAccepted(parts + [TextPart(name, value)])
    ensures Body(boundary, parts) + Line("--" + boundary) + Line(DISPOSITION + name + "\"") + Line("") + Line(value)
         == Body(boundary, parts + [TextPart(name, value)])
  {
    TextPrinted(Body(boundary, parts), boundary, name, value);
    BodyExtended(boundary, parts, TextPart(name, value));
  }

  lemma FileAdded(boundary: string, parts: seq<Part>, name: string, filename: string, contentType: string, bytes: Bytes)
    requires AllAccepted(parts) && Accepted(FilePart(name, filename, contentType, bytes))
    ensures AllAccepted(parts + [FilePart(name, filename, contentType, bytes)])
    ensures Body(boundary, parts) + Line("--" + boundary) + Line(DISPOSITION + name + "\"" + FILENAME + filename + "\"")
            + Line(CONTENT_TYPE + contentType) + Line("") + bytes + CRLF
         == Body(boundary, parts + [FilePart(name, filename, contentType, bytes)])
  {
    FilePrinted(Body(boundary, parts), boundary, name, filename, contentType, bytes);
    BodyExtended(boundary, parts, FilePart(name, filename, contentType, bytes));
  }

  lemma TextPrinted(o: Bytes, boundary: string, name: string, value: string)
    ensures o + Line("--" + boundary) + Line(DISPOSITION + name + "\"") + Line("") + Line(value)
         == o + Printed(boundary, TextPart(name, value))
  {
    Sequences.Append4(o, Line("--" + boundary), Line(DISPOSITION + name + "\""), Line(""), Line(value));
  }

  lemma FilePrinted(o: Bytes, boundary: string, name: string, filename: string, contentType: string, bytes: Bytes)
    ensures o + Line("--" + boundary) + Line(DISPOSITION + name + "\"" + FILENAME + filename + "\"")
            + Line(CONTENT_TYPE + contentType) + Line("") + bytes + CRLF
         == o + Printed(boundary, FilePart(name, filename, contentType, bytes))
  {
    var first, second := Line("--" + boundary), Line(DISPOSITION + name + "\"" + FILENAME + filename + "\"");
    Sequences.Append4(o, first, second, Line(CONTENT_TYPE + contentType), Line(""));
    Sequences.Append3(o, first + second + Line(CONTENT_TYPE + contentType) + Line(""), bytes, CRLF);
  }

  lemma BodyExtended(boundary: string, parts: seq<Part>, p: Part)
    requires AllAccepted(parts) && Accepted(p)
    ensures AllAccepted(parts + [p])
    ensures Body(boundary, parts + [p]) == Body(boundary, parts) + Printed(boundary, p)
  {
    assert (parts + [p])[..|parts|] == parts;
  }

  // ---------- the reader ----------

  /** A part as a recipient sees it. */
  datatype Received = Received(name: Bytes, filename: Option<Bytes>, contentType: Option<Bytes>, content: Bytes)

  /** What stands between a prefix and the next quote, and what follows. */
  function ReadQuoted(text: Bytes, prefix: Bytes): (r: Option<(Bytes, Bytes)>)
  {
    if prefix <= text then Cut(text[|prefix|..], [QUOTE]) else None
  }

  /** The fixed words of the headers. */
  datatype Words = Words(formData: Bytes, disposition: Bytes, filename: Bytes, contentType: Bytes)

  /** The bytes of a text in ASCII. */
  predicate Spells(data: Bytes, text: string) {
    |data| == |text| && forall i :: 0 <= i < |data| ==> data[i] == text[i] as int && data[i] < 0x80
  }

  /** What a recipient looks for. */
  predicate FormWords(w: Words) {
    && Spells(w.formData, "multipart/form-data; boundary=")
    && Spells(w.disposition, "Content-Disposition: form-data; name=\"")
    && Spells(w.filename, "; filename=\"")
    && Spells(w.contentType, "Content-Type: ")
  }

  lemma {:induction false} SpelledIsUtf8(data: Bytes, text: string)
    requires Spells(data, text)
    ensures data == Utf8(text)
  {
    Utf8First(text);
    if text != "" {
      assert data[0] == text[0] as int && data == [data[0]] + data[1..];
      SpelledIsUtf8(data[1..], text[1..]);
    }
  }

  lemma AsciiSpelled(text: string) returns (data: Bytes)
    requires forall c :: c in text ==> c as int < 0x80
    ensures Spells(data, text)
  {
    assert forall i :: 0 <= i < |text| ==> text[i] in text;
    data := seq(|text|, i requires 0 <= i < |text| => text[i] as int);
  }

  /** There are such words. */
  lemma SpelledWords() returns (w: Words)
    ensures FormWords(w)
  {
    var formData := AsciiSpelled("multipart/form-data; boundary=");
    var disposition := AsciiSpelled("Content-Disposition: form-data; name=\"");
    var filename := AsciiSpelled("; filename=\"");
    var contentType := AsciiSpelled("Content-Type: ");
    w := Words(formData, disposition, filename, contentType);
  }

  lemma WordsEncoded(w: Words)
    requires FormWords(w)
    ensures w == Words(Utf8(FORM_DATA), Utf8(DISPOSITION), Utf8(FILENAME), Utf8(CONTENT_TYPE))
  {
    SpelledIsUtf8(w.formData, FORM_DATA);
    SpelledIsUtf8(w.disposition, DISPOSITION);
    SpelledIsUtf8(w.filename, FILENAME);
    SpelledIsUtf8(w.contentType, CONTENT_TYPE);
  }

  /** The name and the file name of a `Content-Disposition` line. */
  function ReadDisposition(w: Words, line: Bytes): Option<(Bytes, Option<Bytes>)> {
    match ReadQuoted(line, w.disposition)
    case None => None
    case Some((name, rest)) =>
      if rest == [] then Some((name, None))
      else match ReadQuoted(rest, w.filename)
        case None => None
        case Some((filename, tail)) => if tail == [] then Some((name, Some(filename))) else None
  }

  /** What follows the `Content-Disposition` line: perhaps a `Content-Type` line, an empty line, the content. */
  function ReadRest(w: Words, text: Bytes): Option<(Option<Bytes>, Bytes)> {
    match Cut(text, CRLF)
    case None => None
    case Some((line, rest)) =>
      if line == [] then Some((None, rest))
      else if w.contentType <= line && CRLF <= rest then Some((Some(line[|w.contentType|..]), rest[2..]))
      else None
  }

  /** One part, from the end of its delimiter to the next delimiter. */
  function ReadPart(w: Words, piece: Bytes): Option<Received> {
    if !(CRLF <= piece) then None
    else match Cut(piece[2..], CRLF)
      case None => None
      case Some((line, text)) =>
        var names, rest := ReadDisposition(w, line), ReadRest(w, text);
        if names.None? || rest.None? then None
        else Some(Received(names.value.0, names.value.1, rest.value.0, rest.value.1))
  }

  /** The parts before the closing delimiter; none if it is missing or a part is malformed. */
  function ReadParts(w: Words, pieces: seq<Bytes>): Option<seq<Received>> {
    if pieces == [] then None
    else if [DASH, DASH] <= pieces[0] then Some([])
    else
      var first, others := ReadPart(w, pieces[0]), ReadParts(w, pieces[1..]);
      if first.None? || others.None? then None else Some([first.value] + others.value)
  }

  function Delimiter(boundary: Bytes): Bytes {
    CRLF + ([DASH, DASH] + boundary)
  }

  /** Splits a body at the delimiters its `Content-Type` announces; what precedes the first is ignored. */
  function Read(w: Words, contentType: Bytes, body: Bytes): Option<seq<Received>> {
    if !(w.formData <= contentType) then None
    else ReadParts(w, Split(CRLF + body, Delimiter(contentType[|w.formData|..]))[1..])
  }

  // ---------- headers read back ----------

  function Encoded(p: Part): Received {
    match p
    case TextPart(name, value) => Received(Utf8(name), None, None, Utf8(value))
    case FilePart(name, filename, contentType, bytes) =>
      Received(Utf8(name), Some(Utf8(filename)), Some(Utf8(contentType)), bytes)
  }

  /** Nothing of a part is lost in its encoding. */
  lemma EncodedInjective(p: Part, q: Part)
    requires Encoded(p) == Encoded(q)
    ensures p == q
  {
    Utf8Injective(p.name, q.name);
    match p
    case TextPart(_, value) =>
      Utf8Injective(value, q.value);
    case FilePart(_, filename, contentType, _) =>
      Utf8Injective(filename, q.filename);
      Utf8Injective(contentType, q.contentType);
  }

  lemma TokenBytes(value: string)
    requires IsToken(value)
    ensures QUOTE !in Utf8(value) && CR !in Utf8(value) && Utf8(value) != []
  {
    assert '"' as int == QUOTE && '\r' as int == CR;
    if QUOTE in Utf8(value) {
      AsciiComesFromText(value, '"');
    }
    if CR in Utf8(value) {
      AsciiComesFromText(value, '\r');
    }
  }

  lemma QuotedReads(prefix: Bytes, value: Bytes, rest: Bytes)
    requires QUOTE !in value
    ensures ReadQuoted(prefix + (value + [QUOTE] + rest), prefix) == Some((value, rest))
  {
    var text := prefix + (value + [QUOTE] + rest);
    assert prefix <= text && text[|prefix|..] == value + [QUOTE] + rest;
    CutHere(value, [QUOTE], rest);
  }

  lemma QuoteEncoded()
    ensures Utf8("\"") == [QUOTE]
  {
    Utf8First("\"");
    assert "\""[1..] == "";
  }

  lemma TextDispositionEncoded(name: string)
    ensures Utf8(DISPOSITION + name + "\"") == Utf8(DISPOSITION) + (Utf8(name) + [QUOTE] + [])
  {
    Utf8Concat(DISPOSITION + name, "\"");
    Utf8Concat(DISPOSITION, name);
    QuoteEncoded();
    RegroupText(Utf8(DISPOSITION), Utf8(name), [QUOTE]);
  }

  lemma RegroupText(a: Bytes, b: Bytes, q: Bytes)
    ensures a + b + q == a + (b + q + [])
  {
  }

  lemma FileDispositionEncoded(name: string, filename: string)
    ensures Utf8(DISPOSITION + name + "\"" + FILENAME + filename + "\"")
         == Utf8(DISPOSITION) + (Utf8(name) + [QUOTE] + (Utf8(FILENAME) + (Utf8(filename) + [QUOTE] + [])))
  {
    Utf8Concat(DISPOSITION + name + "\"" + FILENAME + filename, "\"");
    Utf8Concat(DISPOSITION + name + "\"" + FILENAME, filename);
    Utf8Concat(DISPOSITION + name + "\"", FILENAME);
    Utf8Concat(DISPOSITION + name, "\"");
    Utf8Concat(DISPOSITION, name);
    QuoteEncoded();
    Regroup(Utf8(DISPOSITION), Utf8(name), [QUOTE], Utf8(FILENAME), Utf8(filename));
  }

  lemma Regroup(a: Bytes, b: Bytes, q: Bytes, c: Bytes, d: Bytes)
    ensures a + b + q + c + d + q == a + (b + q + (c + (d + q + [])))
  {
  }

  lemma TextDispositionReads(w: Words, name: Bytes)
    requires QUOTE !in name
    ensures ReadDisposition(w, w.disposition + (name + [QUOTE] + [])) == Some((name, None))
  {
    QuotedReads(w.disposition, name, []);
  }

  lemma FileDispositionReads(w: Words, name: Bytes, filename: Bytes)
    requires QUOTE !in name && QUOTE !in filename && w.filename != []
    ensures ReadDisposition(w, w.disposition + (name + [QUOTE] + (w.filename + (filename + [QUOTE] + []))))
         == Some((name, Some(filename)))
  {
    var rest := w.filename + (filename + [QUOTE] + []);
    QuotedReads(w.disposition, name, rest);
    QuotedReads(w.filename, filename, []);
  }

  /** The headers of a part read with these words give its names and its type. */
  predicate Understood(w: Words, p: Part) {
    && ReadDisposition(w, Utf8(Disposition(p))) == Some((Encoded(p).name, Encoded(p).filename))
    && (p.FilePart? ==> Utf8(CONTENT_TYPE + p.contentType) == w.contentType + Utf8(p.contentType))
  }

  lemma TextUnderstood(w: Words, p: Part)
    requires FormWords(w) && Accepted(p) && p.TextPart?
    ensures Understood(w, p)
  {
    WordsEncoded(w);
    TokenBytes(p.name);
    TextDispositionEncoded(p.name);
    TextDispositionReads(w, Utf8(p.name));
  }

  lemma FileUnderstood(w: Words, p: Part)
    requires FormWords(w) && Accepted(p) && p.FilePart?
    ensures Understood(w, p)
  {
    WordsEncoded(w);
    TokenBytes(p.name);
    TokenBytes(p.filename);
    FileDispositionEncoded(p.name, p.filename);
    FileDispositionReads(w, Utf8(p.name), Utf8(p.filename));
    Utf8Concat(CONTENT_TYPE, p.contentType);
  }

  // ---------- parts read back ----------

  /** A part as the reader sees it: everything between two delimiters. */
  function Piece(p: Part): Bytes {
    CRLF + (Headers(p) + (CRLF + Content(p)))
  }

  function Headers(p: Part): Bytes {
    if p.TextPart? then Line(Disposition(p)) else Line(Disposition(p)) + Line(CONTENT_TYPE + p.contentType)
  }

  /** A header line cannot be taken for a delimiter. */
  predicate IsHeader(line: Bytes) {
    line != [] && line[0] != DASH && CR !in line
  }

  lemma HeaderText(s: string)
    requires s != "" && s[0] == 'C' && '\r' !in s
    ensures IsHeader(Utf8(s))
  {
    assert 'C' as int == 0x43 && '\r' as int == CR;
    Utf8First(s);
    if CR in Utf8(s) {
      AsciiComesFromText(s, '\r');
    }
  }

  lemma DispositionIsHeader(p: Part)
    requires Accepted(p)
    ensures IsHeader(Utf8(Disposition(p)))
  {
    NoBreaks();
    HeaderText(Disposition(p));
  }

  lemma ContentTypeIsHeader(contentType: string)
    requires IsToken(contentType)
    ensures IsHeader(Utf8(CONTENT_TYPE + contentType))
  {
    NoBreaks();
    HeaderText(CONTENT_TYPE + contentType);
  }

  lemma NoBreaks()
    ensures '\r' !in DISPOSITION && '\r' !in FILENAME && '\r' !in CONTENT_TYPE
  {
  }

  lemma TextRestReads(w: Words, content: Bytes)
    ensures ReadRest(w, CRLF + content) == Some((None, content))
  {
  }

  lemma FileRestReads(w: Words, contentType: Bytes, content: Bytes)
    requires IsHeader(w.contentType + contentType)
    ensures ReadRest(w, w.contentType + contentType + CRLF + (CRLF + content)) == Some((Some(contentType), content))
  {
    var line := w.contentType + contentType;
    CutHere(line, CRLF, CRLF + content);
    assert line[|w.contentType|..] == contentType;
    assert (CRLF + content)[2..] == content;
  }

  lemma TextPieceReads(w: Words, line: Bytes, names: (Bytes, Option<Bytes>), content: Bytes)
    requires CR !in line && ReadDisposition(w, line) == Some(names)
    ensures ReadPart(w, CRLF + (line + CRLF + (CRLF + content))) == Some(Received(names.0, names.1, None, content))
  {
    PieceCuts(CRLF + (line + CRLF + (CRLF + content)), line, CRLF + content);
    TextRestReads(w, content);
  }

  lemma FilePieceReads(w: Words, line: Bytes, names: (Bytes, Option<Bytes>), contentType: Bytes, content: Bytes)
    requires CR !in line && ReadDisposition(w, line) == Some(names) && IsHeader(w.contentType + contentType)
    ensures var second := w.contentType + contentType;
      ReadPart(w, CRLF + (line + CRLF + (second + CRLF) + (CRLF + content)))
        == Some(Received(names.0, names.1, Some(contentType), content))
  {
    var second := w.contentType + contentType;
    RegroupFile(line, second, CRLF + content);
    PieceCuts(CRLF + (line + CRLF + (second + CRLF + (CRLF + content))), line, second + CRLF + (CRLF + content));
    FileRestReads(w, contentType, content);
  }

  lemma PieceReads(w: Words, p: Part)
    requires Accepted(p) && Understood(w, p)
    ensures ReadPart(w, Piece(p)) == Some(Encoded(p))
  {
    DispositionIsHeader(p);
    var line, names := Utf8(Disposition(p)), (Encoded(p).name, Encoded(p).filename);
    match p
    case TextPart(_, value) =>
      TextPieceReads(w, line, names, Utf8(value));
    case FilePart(_, _, contentType, bytes) =>
      ContentTypeIsHeader(contentType);
      FilePieceReads(w, line, names, Utf8(contentType), bytes);
  }

  lemma RegroupFile(line: Bytes, second: Bytes, end: Bytes)
    ensures CRLF + (line + CRLF + (second + CRLF) + end) == CRLF + (line + CRLF + (second + CRLF + end))
    ensures CRLF + (line + CRLF + (second + CRLF) + end) == CRLF + (line + (CRLF + (second + (CRLF + end))))
  {
  }

  lemma PieceCuts(piece: Bytes, line: Bytes, text: Bytes)
    requires piece == CRLF + (line + CRLF + text) && CR !in line
    ensures CRLF <= piece && Cut(piece[2..], CRLF) == Some((line, text))
  {
    assert piece[2..] == line + CRLF + text;
    CutHere(line, CRLF, text);
  }

  // ---------- where delimiters can hide ----------

  function DelimiterOf(boundary: string): Bytes {
    CRLF + Utf8("--" + boundary)
  }

  /** The content, as the reader meets it, holds no delimiter. */
  predicate Clean(boundary: string, p: Part) {
    !Contains(CRLF + Content(p), DelimiterOf(boundary))
  }

  predicate IsBoundary(boundary: string) {
    boundary != "" && '\r' !in boundary
  }

  lemma UuidIsBoundary(uuid: string)
    requires IsUuid(uuid)
    ensures IsBoundary("feishu-" + uuid)
  {
  }

  lemma DashesEncoded(boundary: string)
    ensures Utf8("--" + boundary) == [DASH, DASH] + Utf8(boundary)
    ensures DelimiterOf(boundary) == Delimiter(Utf8(boundary))
  {
    var s := "--" + boundary;
    assert s[1..] == "-" + boundary && s[1..][1..] == boundary;
    Utf8First(s);
    Utf8First(s[1..]);
  }

  lemma DelimiterShape(boundary: string)
    requires IsBoundary(boundary)
    ensures IsDelimiter(DelimiterOf(boundary))
  {
    DashesEncoded(boundary);
    assert '\r' as int == CR;
    if CR in Utf8(boundary) {
      AsciiComesFromText(boundary, '\r');
    }
  }

  predicate IsDelimiter(d: Bytes) {
    IsSeparator(d) && |d| > 4 && d[0] == CR && d[2] == DASH
  }

  lemma LineBreakSkipped(s: Bytes, d: Bytes)
    requires IsDelimiter(d) && (s == [] || s[0] != DASH)
    ensures Contains(CRLF + s, d) <==> Contains(s, d)
  {
    var t := CRLF + s;
    if s != [] {
      assert t[2] == s[0];
    }
    assert !(d <= t);
    assert t[1..] == [0x0A] + s;
    SkipStretch([0x0A], s, d);
  }

  lemma HeaderSkipped(line: Bytes, s: Bytes, d: Bytes)
    requires IsDelimiter(d) && IsHeader(line)
    ensures Contains(CRLF + (line + s), d) <==> Contains(s, d)
  {
    LineBreakSkipped(line + s, d);
    SkipStretch(line, s, d);
  }

  lemma OneHeader(line: Bytes, content: Bytes, d: Bytes)
    requires IsDelimiter(d) && IsHeader(line)
    ensures Contains(CRLF + (line + CRLF + (CRLF + content)), d) <==> Contains(CRLF + content, d)
  {
    Sequences.Append2(line, CRLF, CRLF + content);
    HeaderSkipped(line, CRLF + (CRLF + content), d);
    LineBreakSkipped(CRLF + content, d);
  }

  lemma TwoHeaders(line: Bytes, second: Bytes, content: Bytes, d: Bytes)
    requires IsDelimiter(d) && IsHeader(line) && IsHeader(second)
    ensures Contains(CRLF + (line + CRLF + (second + CRLF) + (CRLF + content)), d) <==> Contains(CRLF + content, d)
  {
    var end := CRLF + (CRLF + content);
    RegroupFile(line, second, CRLF + content);
    HeaderSkipped(line, CRLF + (second + end), d);
    HeaderSkipped(second, end, d);
    LineBreakSkipped(CRLF + content, d);
  }

  /** A delimiter cannot hide in the headers. */
  lemma PieceIsClean(boundary: string, p: Part)
    requires Accepted(p) && IsBoundary(boundary)
    ensures Contains(Piece(p), DelimiterOf(boundary)) <==> !Clean(boundary, p)
  {
    DispositionIsHeader(p);
    DelimiterShape(boundary);
    if p.TextPart? {
      OneHeader(Utf8(Disposition(p)), Content(p), DelimiterOf(boundary));
    } else {
      ContentTypeIsHeader(p.contentType);
      TwoHeaders(Utf8(Disposition(p)), Utf8(CONTENT_TYPE + p.contentType), Content(p), DelimiterOf(boundary));
    }
  }

  // ---------- the whole body ----------

  /** The body without its last line break, behind the line break that precedes its first delimiter. */
  function Delimited(boundary: string, parts: seq<Part>): Bytes {
    if parts == [] then []
    else Delimited(boundary, parts[..|parts| - 1]) + (DelimiterOf(boundary) + Piece(parts[|parts| - 1]))
  }

  lemma PrintedIsDelimited(boundary: string, p: Part)
    ensures CRLF + Printed(boundary, p) == DelimiterOf(boundary) + Piece(p) + CRLF
  {
    var dashes, line := Utf8("--" + boundary), Utf8(Disposition(p));
    assert Utf8("") == [] && Line("") == CRLF;
    if p.TextPart? {
      RegroupPrinted(dashes, line + CRLF, Content(p));
    } else {
      var second := Utf8(CONTENT_TYPE + p.contentType);
      assert line + CRLF + (second + CRLF) == Headers(p);
      RegroupPrinted(dashes, Headers(p), Content(p));
      Sequences.Append2(dashes + CRLF, line + CRLF, second + CRLF);
    }
  }

  lemma RegroupPrinted(dashes: Bytes, headers: Bytes, content: Bytes)
    ensures CRLF + (dashes + CRLF + headers + CRLF + content + CRLF)
         == (CRLF + dashes) + (CRLF + (headers + (CRLF + content))) + CRLF
    ensures dashes + CRLF + headers + CRLF + (content + CRLF) == dashes + CRLF + headers + CRLF + content + CRLF
  {
  }

  lemma {:induction false} BodyIsDelimited(boundary: string, parts: seq<Part>)
    ensures CRLF + Body(boundary, parts) == Delimited(boundary, parts) + CRLF
  {
    if parts != [] {
      var front, p := parts[..|parts| - 1], parts[|parts| - 1];
      BodyIsDelimited(boundary, front);
      PrintedIsDelimited(boundary, p);
      Glue(Body(boundary, front), Delimited(boundary, front), Printed(boundary, p), DelimiterOf(boundary) + Piece(p));
    }
  }

  lemma Glue(body: Bytes, delimited: Bytes, printed: Bytes, piece: Bytes)
    requires CRLF + body == delimited + CRLF && CRLF + printed == piece + CRLF
    ensures CRLF + (body + printed) == (delimited + piece) + CRLF
  {
    Sequences.Append2(CRLF, body, printed);
    Sequences.Append2(delimited, CRLF, printed);
    Sequences.Append2(delimited, piece, CRLF);
  }

  const CLOSING: Bytes := [0x2D, 0x2D, 0x0D, 0x0A]

  lemma ClosingLine(dashes: Bytes)
    ensures CRLF + (dashes + [DASH, DASH] + CRLF) == CRLF + dashes + CLOSING
  {
  }

  lemma FinishedIsDelimited(boundary: string, parts: seq<Part>)
    ensures CRLF + Finished(boundary, parts) == Delimited(boundary, parts) + (DelimiterOf(boundary) + CLOSING)
  {
    BodyIsDelimited(boundary, parts);
    Utf8Concat("--" + boundary, "--");
    assert Utf8("--") == [DASH, DASH] by {
      DashesEncoded("");
      assert "--" + "" == "--" && Utf8("") == [];
    }
    var last := Line("--" + boundary + "--");
    ClosingLine(Utf8("--" + boundary));
    Sequences.Append2(CRLF, Body(boundary, parts), last);
    Sequences.Append2(Delimited(boundary, parts), CRLF, last);
  }

  function Pieces(parts: seq<Part>): seq<Bytes> {
    seq(|parts|, i requires 0 <= i < |parts| => Piece(parts[i]))
  }

  function AllEncoded(parts: seq<Part>): seq<Received> {
    seq(|parts|, i requires 0 <= i < |parts| => Encoded(parts[i]))
  }

  lemma PiecesExtended(front: seq<Part>, p: Part)
    ensures Pieces(front + [p]) == Pieces(front) + [Piece(p)]
  {
  }

  lemma {:induction false} DelimitedSplits(boundary: string, parts: seq<Part>)
    requires IsBoundary(boundary) && forall p :: p in parts ==> Accepted(p) && Clean(boundary, p)
    ensures Split(Delimited(boundary, parts), DelimiterOf(boundary)) == [[]] + Pieces(parts)
  {
    if parts == [] {
      NothingToSplit(DelimiterOf(boundary));
    } else {
      var front, p := parts[..|parts| - 1], parts[|parts| - 1];
      DelimitedSplits(boundary, front);
      DelimitedStep(boundary, front, p);
      FrontAndLast(parts);
    }
  }

  lemma DelimitedStep(boundary: string, front: seq<Part>, p: Part)
    requires IsBoundary(boundary) && Accepted(p) && Clean(boundary, p)
    requires Split(Delimited(boundary, front), DelimiterOf(boundary)) == [[]] + Pieces(front)
    ensures Split(Delimited(boundary, front + [p]), DelimiterOf(boundary)) == [[]] + Pieces(front + [p])
  {
    PieceIsClean(boundary, p);
    DelimiterShape(boundary);
    DelimitedExtended(boundary, front, p);
    PiecesExtended(front, p);
    SplitOneMore(Delimited(boundary, front), Piece(p), DelimiterOf(boundary), Pieces(front));
  }

  lemma DelimitedExtended(boundary: string, front: seq<Part>, p: Part)
    ensures Delimited(boundary, front + [p]) == Delimited(boundary, front) + (DelimiterOf(boundary) + Piece(p))
  {
    assert (front + [p])[..|front|] == front;
  }

  lemma NothingToSplit(d: Bytes)
    requires d != []
    ensures Split([], d) == [[]]
  {
  }

  /** All pieces of a finished body whose contents hide no delimiter. */
  lemma FinishedSplits(boundary: string, parts: seq<Part>)
    requires IsBoundary(boundary) && forall p :: p in parts ==> Accepted(p) && Clean(boundary, p)
    ensures Split(CRLF + Finished(boundary, parts), DelimiterOf(boundary))[1..] == Pieces(parts) + [CLOSING]
  {
    DelimiterShape(boundary);
    FinishedIsDelimited(boundary, parts);
    DelimitedSplits(boundary, parts);
    ShortIsClean(CLOSING, DelimiterOf(boundary));
    SplitOneMore(Delimited(boundary, parts), CLOSING, DelimiterOf(boundary), Pieces(parts));
  }

  lemma OnePieceRead(w: Words, first: Bytes, part: Received, others: seq<Bytes>, parts: seq<Received>)
    requires ReadPart(w, first) == Some(part) && ReadParts(w, others) == Some(parts)
    ensures ReadParts(w, [first] + others) == Some([part] + parts)
  {
    assert CRLF <= first && first[0] == CR;
    assert ([first] + others)[1..] == others;
  }

  lemma {:induction false} PiecesRead(w: Words, pieces: seq<Bytes>, parts: seq<Received>)
    requires |pieces| == |parts|
    requires forall i :: 0 <= i < |pieces| ==> ReadPart(w, pieces[i]) == Some(parts[i])
    ensures ReadParts(w, pieces + [CLOSING]) == Some(parts)
  {
    if pieces == [] {
      assert (pieces + [CLOSING])[0] == CLOSING && [DASH, DASH] <= CLOSING;
    } else {
      PiecesRead(w, pieces[1..], parts[1..]);
      OnePieceRead(w, pieces[0], parts[0], pieces[1..] + [CLOSING], parts[1..]);
      FirstAndRest(pieces, [CLOSING]);
      FirstAndRest(parts, []);
    }
  }

  lemma FrontAndLast<T>(s: seq<T>)
    requires s != []
    ensures s[..|s| - 1] + [s[|s| - 1]] == s
  {
  }

  lemma FirstAndRest<T>(s: seq<T>, t: seq<T>)
    requires s != []
    ensures [s[0]] + (s[1..] + t) == s + t && [s[0]] + s[1..] == s
  {
  }

  lemma BoundaryRead(w: Words, contentType: Bytes, boundary: Bytes)
    requires contentType == w.formData + boundary
    ensures w.formData <= contentType && contentType[|w.formData|..] == boundary
  {
  }

  // ---------- what the reader accepts ----------

  lemma ReadPartEnds(w: Words, piece: Bytes) returns (before: Bytes)
    requires ReadPart(w, piece).Some?
    ensures piece == before + (CRLF + ReadPart(w, piece).value.content)
  {
    var (line, text) := Cut(piece[2..], CRLF).value;
    var content := ReadPart(w, piece).value.content;
    var (first, rest) := Cut(text, CRLF).value;
    before := CRLF + (line + CRLF);
    assert piece == before + text by {
      assert piece == CRLF + piece[2..];
    }
    if first != [] {
      assert rest == CRLF + content;
      before := before + (first + CRLF);
    }
  }

  lemma ReadPartIsClean(w: Words, piece: Bytes, d: Bytes)
    requires ReadPart(w, piece).Some? && !Contains(piece, d)
    ensures !Contains(CRLF + ReadPart(w, piece).value.content, d)
  {
    var before := ReadPartEnds(w, piece);
    if Contains(CRLF + ReadPart(w, piece).value.content, d) {
      SuffixContained(before, CRLF + ReadPart(w, piece).value.content, d);
    }
  }

  lemma FirstPartRead(w: Words, pieces: seq<Bytes>)
    requires ReadParts(w, pieces).Some? && ReadParts(w, pieces).value != []
    ensures pieces != [] && ReadPart(w, pieces[0]).Some? && ReadParts(w, pieces[1..]).Some?
    ensures ReadParts(w, pieces).value == [ReadPart(w, pieces[0]).value] + ReadParts(w, pieces[1..]).value
  {
  }

  /** What a reader takes for content never holds a delimiter. */
  lemma {:induction false} ReadContentsAreClean(w: Words, pieces: seq<Bytes>, d: Bytes)
    requires forall k :: 0 <= k < |pieces| ==> !Contains(pieces[k], d)
    requires ReadParts(w, pieces).Some?
    ensures forall part :: part in ReadParts(w, pieces).value ==> !Contains(CRLF + part.content, d)
  {
    if ReadParts(w, pieces).value != [] {
      FirstPartRead(w, pieces);
      ReadPartIsClean(w, pieces[0], d);
      forall k | 0 <= k < |pieces| - 1 ensures !Contains(pieces[1..][k], d) {
        assert pieces[1..][k] == pieces[k + 1];
      }
      ReadContentsAreClean(w, pieces[1..], d);
    }
  }

  lemma ReadMeansClean(w: Words, s: Bytes, d: Bytes, contents: seq<Bytes>, parts: seq<Received>)
    requires d != [] && ReadParts(w, Split(s, d)[1..]) == Some(parts)
    requires |contents| == |parts| && forall i :: 0 <= i < |parts| ==> parts[i].content == contents[i]
    ensures forall i :: 0 <= i < |contents| ==> !Contains(CRLF + contents[i], d)
  {
    var pieces := Split(s, d)[1..];
    forall k | 0 <= k < |pieces| ensures !Contains(pieces[k], d) {
      PiecesAreClean(s, d, k + 1);
    }
    ReadContentsAreClean(w, pieces, d);
    forall i | 0 <= i < |contents| ensures !Contains(CRLF + contents[i], d) {
      assert parts[i] in parts;
    }
  }

  function Contents(parts: seq<Part>): seq<Bytes> {
    seq(|parts|, i requires 0 <= i < |parts| => Content(parts[i]))
  }

  lemma CleanReads(w: Words, boundary: string, parts: seq<Part>)
    requires IsBoundary(boundary)
    requires forall p :: p in parts ==> Accepted(p) && Understood(w, p) && Clean(boundary, p)
    ensures ReadParts(w, Split(CRLF + Finished(boundary, parts), DelimiterOf(boundary))[1..]) == Some(AllEncoded(parts))
  {
    FinishedSplits(boundary, parts);
    forall i | 0 <= i < |parts| ensures ReadPart(w, Pieces(parts)[i]) == Some(AllEncoded(parts)[i]) {
      PieceReads(w, parts[i]);
    }
    PiecesRead(w, Pieces(parts), AllEncoded(parts));
  }

  lemma ReadIsClean(w: Words, boundary: string, parts: seq<Part>)
    requires IsBoundary(boundary)
    requires ReadParts(w, Split(CRLF + Finished(boundary, parts), DelimiterOf(boundary))[1..])
          == Some(AllEncoded(parts))
    ensures forall p :: p in parts ==> Clean(boundary, p)
  {
    ReadMeansClean(w, CRLF + Finished(boundary, parts), DelimiterOf(boundary), Contents(parts), AllEncoded(parts));
    ContentsAreClean(boundary, parts);
  }

  lemma ContentsAreClean(boundary: string, parts: seq<Part>)
    requires forall i :: 0 <= i < |parts| ==> !Contains(CRLF + Contents(parts)[i], DelimiterOf(boundary))
    ensures forall p :: p in parts ==> Clean(boundary, p)
  {
    forall p | p in parts ensures Clean(boundary, p) {
      var i :| 0 <= i < |parts| && parts[i] == p;
      assert Contents(parts)[i] == Content(p);
    }
  }

  lemma UnderstoodReadsBack(w: Words, contentType: Bytes, boundary: string, parts: seq<Part>)
    requires IsBoundary(boundary) && contentType == w.formData + Utf8(boundary)
    requires forall p :: p in parts ==> Accepted(p) && Understood(w, p)
    ensures Read(w, contentType, Finished(boundary, parts)) == Some(AllEncoded(parts))
      <==> forall p :: p in parts ==> Clean(boundary, p)
  {
    DashesEncoded(boundary);
    BoundaryRead(w, contentType, Utf8(boundary));
    if forall p :: p in parts ==> Clean(boundary, p) {
      CleanReads(w, boundary, parts);
    } else if Read(w, contentType, Finished(boundary, parts)) == Some(AllEncoded(parts)) {
      ReadIsClean(w, boundary, parts);
    }
  }

  /**
   A finished form reads back as exactly the accepted parts, in order, if and only if no content, taken
   with the line break before it, holds the delimiter.
   */
  lemma FormReadsBack(w: Words, uuid: string, parts: seq<Part>)
    requires FormWords(w) && IsUuid(uuid) && forall p :: p in parts ==> Accepted(p)
    ensures var boundary := "feishu-" + uuid;
      Read(w, Utf8(FORM_DATA + boundary), Finished(boundary, parts)) == Some(AllEncoded(parts))
      <==> forall p :: p in parts ==> Clean(boundary, p)
  {
    var boundary := "feishu-" + uuid;
    UuidIsBoundary(uuid);
    WordsEncoded(w);
    Utf8Concat(FORM_DATA, boundary);
    forall p | p in parts ensures Understood(w, p) {
      if p.TextPart? {
        TextUnderstood(w, p);
      } else {
        FileUnderstood(w, p);
      }
    }
    UnderstoodReadsBack(w, Utf8(FORM_DATA + boundary), boundary, parts);
  }

  /** In particular when no content holds `--boundary`. */
  lemma NoDashesIsClean(boundary: string, p: Part)
    requires !Contains(Content(p), Utf8("--" + boundary))
    ensures Clean(boundary, p)
  {
    var s, dashes := CRLF + Content(p), Utf8("--" + boundary);
    assert s[1..][1..] == Content(p) && s[1..] != [];
    if Contains(s, CRLF + dashes) {
      assert CRLF + dashes == [CR] + ([0x0A] + dashes);
      TailContained(s, [CR], [0x0A] + dashes);
      TailContained(s[1..], [0x0A], dashes);
    }
  }

  /** A text field can hold the delimiter: its value is accepted, and read behind a line break it is one. */
  function Disguised(boundary: string): Part {
    TextPart("a", "--" + boundary)
  }

  lemma DisguisedAccepted(uuid: string)
    requires IsUuid(uuid)
    ensures Accepted(Disguised("feishu-" + uuid)) && !Clean("feishu-" + uuid, Disguised("feishu-" + uuid))
  {
    var value := "--" + ("feishu-" + uuid);
    forall c | c in value ensures c != '\r' && c != '\n' && !IsControl(c) {
      assert c in uuid || c in "--feishu-";
    }
    var d := DelimiterOf("feishu-" + uuid);
    assert d <= CRLF + Content(Disguised("feishu-" + uuid));
  }

  /** The form with this one field is finished without an error and does not read back. */
  lemma DisguisedIsLost(w: Words, uuid: string)
    requires FormWords(w) && IsUuid(uuid)
    ensures var boundary := "feishu-" + uuid;
      Read(w, Utf8(FORM_DATA + boundary), Finished(boundary, [Disguised(boundary)]))
        != Some(AllEncoded([Disguised(boundary)]))
  {
    var boundary := "feishu-" + uuid;
    DisguisedAccepted(uuid);
    FormReadsBack(w, uuid, [Disguised(boundary)]);
    assert Disguised(boundary) in [Disguised(boundary)];
  }

  lemma AllEncodedInjective(parts: seq<Part>, others: seq<Part>)
    requires AllEncoded(parts) == AllEncoded(others)
    ensures parts == others
  {
    assert |AllEncoded(parts)| == |AllEncoded(others)|;
    forall i | 0 <= i < |parts| ensures parts[i] == others[i] {
      assert AllEncoded(parts)[i] == Encoded(parts[i]) && AllEncoded(others)[i] == Encoded(others[i]);
      EncodedInjective(parts[i], others[i]);
    }
  }

  /** Two forms with the same boundary and body have the same parts. */
  lemma SameBodySameParts(uuid: string, parts: seq<Part>, others: seq<Part>)
    requires IsUuid(uuid)
    requires forall p :: p in parts ==> Accepted(p) && Clean("feishu-" + uuid, p)
    requires forall p :: p in others ==> Accepted(p) && Clean("feishu-" + uuid, p)
    requires Finished("feishu-" + uuid, parts) == Finished("feishu-" + uuid, others)
    ensures parts == others
  {
    var w := SpelledWords();
    FormReadsBack(w, uuid, parts);
    FormReadsBack(w, uuid, others);
    AllEncodedInjective(parts, others);
  }
}
