/** The values that environment variables and secret files stand for. */
module ConfigValues {
  import opened Wrappers
  import opened Text
  import opened Identifiers
  import opened Numerals
  import opened ConfigDocument
  import Sequences

  /** How a source is read; secret files are text or JSON. */
  datatype Kind = TextKind | IntegerKind | FloatKind | OptionalIntegerKind | BooleanKind | StringListKind | JsonKind

  /** What is given: the parsers of finite floating-point numbers, of JSON and of TOML. */
  datatype Parsers = Parsers(
    float: string -> Option<real>,
    json: string -> Option<Value>,
    toml: string -> Option<Value>
  )

  const I64_MAX: nat := 0x7FFF_FFFF_FFFF_FFFF

  predicate AllDigits(s: string) {
    forall i :: 0 <= i < |s| ==> IsDigit(s[i])
  }

  /** A signed 64-bit decimal number that is not negative; minus zero is not. */
  function ParseNonNegative(raw: string): (r: Option<nat>)
    ensures r.Some? ==> r.value <= I64_MAX
  {
    ParseSigned(Trim(raw))
  }

  function ParseSigned(s: string): (r: Option<nat>)
    ensures r.Some? ==> r.value <= I64_MAX
  {
    var signed := s != "" && (s[0] == '-' || s[0] == '+');
    var digits := if signed then s[1..] else s;
    if digits == "" || !AllDigits(digits) then None
    else
      var n := DecimalValue(digits);
      if n > I64_MAX || (s[0] == '-' && n != 0) then None else Some(n)
  }

  predicate IsNone(s: string) {
    s == "" || Lower(s) == "none"
  }

  /** The items of a comma-separated list, without the space around them; none if one is empty. */
  function Items(parts: seq<string>): Option<seq<string>> {
    if parts == [] then Some([])
    else
      var rest := Items(parts[1..]);
      if Trim(parts[0]) == "" || rest.None? then None else Some([Trim(parts[0])] + rest.value)
  }

  function ParseList(raw: string): Option<seq<string>> {
    if Trim(raw) == "" then Some([]) else Items(SplitAll(raw, ','))
  }

  function Texts(items: seq<string>): seq<Value> {
    seq(|items|, i requires 0 <= i < |items| => Value.Text(items[i]))
  }

  function SetTo<T>(v: Option<T>, f: T -> Value): Option<Override> {
    if v.None? then None else Some(Set(f(v.value)))
  }

  /** What a source says; none if it does not parse. */
  function Resolve(p: Parsers, kind: Kind, raw: string): Option<Override> {
    match kind
    case TextKind => Some(Set(Value.Text(raw)))
    case IntegerKind => SetTo(ParseNonNegative(raw), n => Integer(n))
    case FloatKind => SetTo(p.float(Trim(raw)), x => Float(x))
    case OptionalIntegerKind =>
      if IsNone(Trim(raw)) then Some(Remove) else SetTo(ParseNonNegative(raw), n => Integer(n))
    case BooleanKind =>
      if Trim(raw) == "true" then Some(Set(Boolean(true)))
      else if Trim(raw) == "false" then Some(Set(Boolean(false)))
      else None
    case StringListKind => SetTo(ParseList(raw), items => Array(Texts(items)))
    case JsonKind => SetTo(p.json(raw), v => v)
  }

  /** Every number up to the largest reads back, whatever space is around it. */
  lemma IntegerReadsBack(n: nat, before: string, after: string)
    requires n <= I64_MAX && IsBlank(before) && IsBlank(after)
    ensures ParseNonNegative(before + Decimal(n) + after) == Some(n)
  {
    DecimalReadsBack(n);
    TrimPadded(before, Decimal(n), after);
  }

  /** What can be an item: something without a comma and without space at its ends. */
  predicate IsItem(s: string) {
    s != "" && Trimmed(s) && ',' !in s
  }

  lemma {:induction false} ItemsAreItems(parts: seq<string>)
    requires Items(parts).Some? && forall i :: 0 <= i < |parts| ==> ',' !in parts[i]
    ensures var items := Items(parts).value; |items| == |parts| && forall i :: 0 <= i < |items| ==> IsItem(items[i])
  {
    if parts != [] {
      TrimTrims(parts[0]);
      ItemsAreItems(parts[1..]);
    }
  }

  lemma {:induction false} ItemsStay(items: seq<string>)
    requires forall i :: 0 <= i < |items| ==> IsItem(items[i])
    ensures Items(items) == Some(items)
  {
    if items != [] {
      ItemsStay(items[1..]);
      assert items == [items[0]] + items[1..];
    }
  }

  lemma {:induction false} SplitJoined(items: seq<string>)
    requires items != [] && forall i :: 0 <= i < |items| ==> IsItem(items[i])
    ensures SplitAll(Join(items, ","), ',') == items
    ensures Join(items, ",") != "" && !IsWhitespace(Join(items, ",")[0])
  {
    if |items| == 1 {
      SplitAllPrefix(items[0], "", ',');
    } else {
      SplitJoined(items[1..]);
      SplitAllPrefix(items[0], Join(items[1..], ","), ',');
      assert items == [items[0]] + items[1..];
    }
  }

  /** A list of items, joined with commas, reads back. */
  lemma ListReadsBack(items: seq<string>)
    requires items != [] && forall i :: 0 <= i < |items| ==> IsItem(items[i])
    ensures ParseList(Join(items, ",")) == Some(items)
  {
    var raw := Join(items, ",");
    SplitJoined(items);
    ItemsStay(items);
    assert TrimStart(raw) == raw;
    FirstStays(raw);
  }

  lemma {:induction false} FirstStays(s: string)
    requires s != "" && !IsWhitespace(s[0])
    ensures TrimEnd(s) != ""
  {
    if IsWhitespace(s[|s| - 1]) {
      FirstStays(s[..|s| - 1]);
    }
  }

  /** Whatever parses as a list, its items joined with commas parse as the same list. */
  lemma ListIsStable(raw: string)
    requires ParseList(raw).Some? && ParseList(raw).value != []
    ensures ParseList(Join(ParseList(raw).value, ",")) == ParseList(raw)
  {
    PartsWithout(raw, ',');
    ItemsAreItems(SplitAll(raw, ','));
    ListReadsBack(ParseList(raw).value);
  }

  // ---------- which texts stand for which values ----------

  /** A number printed with leading zeros and a sign; only zero may have a minus. */
  ghost predicate PrintsNumber(raw: string, n: nat) {
    exists sign, zeros :: SignFor(sign, n) && Padded(raw, sign + Zeros(zeros) + Decimal(n))
  }

  predicate SignFor(sign: string, n: nat) {
    sign == "" || sign == "+" || (sign == "-" && n == 0)
  }

  /** Exactly the printed numbers that fit are read. */
  lemma NumberExactly(raw: string, n: nat)
    ensures ParseNonNegative(raw) == Some(n) <==> n <= I64_MAX && PrintsNumber(raw, n)
  {
    if ParseNonNegative(raw) == Some(n) {
      NumberIsPrinted(raw, n);
    }
    if n <= I64_MAX && PrintsNumber(raw, n) {
      var sign, zeros :| SignFor(sign, n) && Padded(raw, sign + Zeros(zeros) + Decimal(n));
      PrintedIsNumber(raw, sign, zeros, n);
    }
  }

  lemma SignedParts(s: string) returns (sign: string, digits: string)
    requires ParseSigned(s).Some?
    ensures s == sign + digits && digits != "" && AllDigits(digits)
    ensures DecimalValue(digits) == ParseSigned(s).value && SignFor(sign, ParseSigned(s).value)
  {
    sign := if s[0] == '-' || s[0] == '+' then [s[0]] else "";
    digits := if s[0] == '-' || s[0] == '+' then s[1..] else s;
    assert s == sign + digits;
  }

  lemma SignedDigits(sign: string, digits: string, n: nat)
    requires digits != "" && AllDigits(digits) && DecimalValue(digits) == n <= I64_MAX && SignFor(sign, n)
    ensures ParseSigned(sign + digits) == Some(n)
  {
    var s := sign + digits;
    assert IsDigit(digits[0]);
    if sign == "" {
      assert s == digits;
    } else {
      assert s[0] == sign[0] && s[1..] == digits;
    }
  }

  lemma NumberIsPrinted(raw: string, n: nat)
    requires ParseNonNegative(raw) == Some(n)
    ensures PrintsNumber(raw, n)
  {
    var sign, digits := SignedParts(Trim(raw));
    var zeros := DigitsArePrinted(digits);
    Sequences.Append2(sign, Zeros(zeros), Decimal(n));
    TrimTrims(raw);
    TrimExactly(raw, Trim(raw));
  }

  lemma PrintedTrimmed(sign: string, zeros: nat, n: nat)
    requires SignFor(sign, n)
    ensures Trimmed(sign + Zeros(zeros) + Decimal(n)) && AllDigits(Zeros(zeros) + Decimal(n))
    ensures DecimalValue(Zeros(zeros) + Decimal(n)) == n
  {
    var digits := Zeros(zeros) + Decimal(n);
    var s := sign + digits;
    Sequences.Append2(sign, Zeros(zeros), Decimal(n));
    DecimalReadsBack(n);
    ZerosCountNothing(zeros, Decimal(n));
    assert IsDigit(digits[0]) && IsDigit(digits[|digits| - 1]);
    assert s[|s| - 1] == digits[|digits| - 1] && s[0] == if sign == "" then digits[0] else sign[0];
  }

  lemma PrintedIsNumber(raw: string, sign: string, zeros: nat, n: nat)
    requires n <= I64_MAX && SignFor(sign, n) && Padded(raw, sign + Zeros(zeros) + Decimal(n))
    ensures ParseNonNegative(raw) == Some(n)
  {
    PrintedTrimmed(sign, zeros, n);
    TrimExactly(raw, sign + Zeros(zeros) + Decimal(n));
    Sequences.Append2(sign, Zeros(zeros), Decimal(n));
    SignedDigits(sign, Zeros(zeros) + Decimal(n), n);
  }

  function FlagText(flag: bool): string {
    if flag then "true" else "false"
  }

  lemma FlagTextsTrimmed(flag: bool)
    ensures Trimmed(FlagText(flag))
  {
  }

  /** A flag is exactly its lower-case word, with any space around it. */
  lemma FlagExactly(p: Parsers, raw: string, flag: bool)
    ensures Resolve(p, BooleanKind, raw) == Some(Set(Boolean(flag))) <==> Padded(raw, FlagText(flag))
    ensures Resolve(p, BooleanKind, raw) == None <==> !Padded(raw, "true") && !Padded(raw, "false")
  {
    FlagTextsTrimmed(true);
    FlagTextsTrimmed(false);
    TrimExactly(raw, FlagText(true));
    TrimExactly(raw, FlagText(false));
  }

  /** Nothing but space, or `none` in any letter case. */
  ghost predicate SaysNone(raw: string) {
    IsBlank(raw) || exists word :: Lower(word) == "none" && Padded(raw, word)
  }

  lemma NoneExactly(raw: string)
    ensures IsNone(Trim(raw)) <==> SaysNone(raw)
  {
    BlankExactly(raw);
    TrimTrims(raw);
    TrimExactly(raw, Trim(raw));
    if word :| Lower(word) == "none" && Padded(raw, word) {
      NoneTrimmed(word);
      TrimExactly(raw, word);
    }
  }

  lemma NoneTrimmed(word: string)
    requires Lower(word) == "none"
    ensures word != "" && Trimmed(word)
  {
    assert |word| == 4 && LowerChar(word[0]) == Lower(word)[0] == 'n' && LowerChar(word[3]) == Lower(word)[3] == 'e';
  }

  /** Items with any space around them, joined by commas; no items are nothing but space. */
  ghost predicate ListsItems(raw: string, items: seq<string>) {
    if items == [] then IsBlank(raw)
    else exists parts :: PartsFor(parts, items) && raw == Join(parts, ",")
  }

  ghost predicate PartsFor(parts: seq<string>, items: seq<string>) {
    && |parts| == |items| > 0
    && forall i :: 0 <= i < |parts| ==> ',' !in parts[i] && IsItem(items[i]) && Padded(parts[i], items[i])
  }

  lemma {:induction false} ItemsExactly(parts: seq<string>, items: seq<string>)
    requires forall i :: 0 <= i < |parts| ==> ',' !in parts[i]
    ensures Items(parts) == Some(items)
       <==> |parts| == |items| && forall i :: 0 <= i < |parts| ==> IsItem(items[i]) && Padded(parts[i], items[i])
    decreases |parts|
  {
    if parts != [] && items != [] {
      ItemsExactly(parts[1..], items[1..]);
      OneItem(parts[0], items[0]);
      var tail, rest := parts[1..], items[1..];
      assert parts == [parts[0]] + tail && items == [items[0]] + rest;
    }
  }

  lemma OneItem(part: string, item: string)
    requires ',' !in part
    ensures Trim(part) != "" && Trim(part) == item <==> IsItem(item) && Padded(part, item)
  {
    TrimTrims(part);
    TrimExactly(part, Trim(part));
    if Trimmed(item) {
      TrimExactly(part, item);
    }
  }

  /** Exactly the lists written so are read. */
  lemma ListExactly(raw: string, items: seq<string>)
    ensures ParseList(raw) == Some(items) <==> ListsItems(raw, items)
  {
    BlankExactly(raw);
    var parts := SplitAll(raw, ',');
    PartsWithout(raw, ',');
    JoinSplit(raw, ',');
    ItemsExactly(parts, items);
    if items != [] {
      if others :| PartsFor(others, items) && raw == Join(others, ",") {
        SplitJoin(others, ',');
        JoinedNotBlank(others, items);
      }
      if ParseList(raw) == Some(items) {
        assert PartsFor(parts, items);
      }
    }
  }

  lemma {:induction false} JoinedNotBlank(parts: seq<string>, items: seq<string>)
    requires PartsFor(parts, items)
    ensures !IsBlank(Join(parts, ","))
  {
    var before, after :| IsBlank(before) && IsBlank(after) && parts[0] == before + items[0] + after;
    var raw := Join(parts, ",");
    assert parts[0] <= raw;
    assert raw[|before|] == items[0][0];
  }

  /** What a text stands for when it is read as a given kind. */
  ghost predicate StandsFor(p: Parsers, kind: Kind, raw: string, o: Override) {
    match kind
    case TextKind => o == Set(Value.Text(raw))
    case IntegerKind => StandsForNumber(raw, o)
    case FloatKind => exists s :: Trimmed(s) && Padded(raw, s) && p.float(s).Some? && o == Set(Float(p.float(s).value))
    case OptionalIntegerKind => if SaysNone(raw) then o == Remove else StandsForNumber(raw, o)
    case BooleanKind => exists flag :: Padded(raw, FlagText(flag)) && o == Set(Boolean(flag))
    case StringListKind => exists items :: ListsItems(raw, items) && o == Set(Array(Texts(items)))
    case JsonKind => p.json(raw).Some? && o == Set(p.json(raw).value)
  }

  ghost predicate StandsForNumber(raw: string, o: Override) {
    exists n: nat :: n <= I64_MAX && PrintsNumber(raw, n) && o == Set(Integer(n))
  }

  /** A text is read as exactly what it stands for, and refused if it stands for nothing. */
  lemma ResolveExactly(p: Parsers, kind: Kind, raw: string, o: Override)
    ensures Resolve(p, kind, raw) == Some(o) <==> StandsFor(p, kind, raw, o)
  {
    match kind
    case IntegerKind => NumberResolves(raw, o);
    case OptionalIntegerKind =>
      NoneExactly(raw);
      NumberResolves(raw, o);
    case FloatKind => FloatResolves(p, raw, o);
    case BooleanKind =>
      FlagExactly(p, raw, true);
      FlagExactly(p, raw, false);
    case StringListKind => ListResolves(raw, o);
    case _ =>
  }

  lemma NumberResolves(raw: string, o: Override)
    ensures SetTo(ParseNonNegative(raw), n => Integer(n)) == Some(o) <==> StandsForNumber(raw, o)
  {
    forall n: nat ensures ParseNonNegative(raw) == Some(n) <==> n <= I64_MAX && PrintsNumber(raw, n) {
      NumberExactly(raw, n);
    }
  }

  lemma FloatResolves(p: Parsers, raw: string, o: Override)
    ensures Resolve(p, FloatKind, raw) == Some(o) <==> StandsFor(p, FloatKind, raw, o)
  {
    TrimTrims(raw);
    forall s | Trimmed(s) ensures Trim(raw) == s <==> Padded(raw, s) {
      TrimExactly(raw, s);
    }
  }

  lemma ListResolves(raw: string, o: Override)
    ensures SetTo(ParseList(raw), items => Array(Texts(items))) == Some(o)
       <==> exists items :: ListsItems(raw, items) && o == Set(Array(Texts(items)))
  {
    forall items ensures ParseList(raw) == Some(items) <==> ListsItems(raw, items) {
      ListExactly(raw, items);
    }
  }
}
