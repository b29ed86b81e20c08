/**
 An independent reader of SQL conditions: a lexer and a recursive-descent parser with the usual
 precedence (OR below AND below a predicate, parentheses around either, the AND of BETWEEN inside
 the predicate). It knows nothing of how the renderer works.
 */
module SqlReader {
  import opened Wrappers
  import opened Identifiers
  import opened Numerals
  import opened Conditions

  // ---------- lexer ----------

  datatype Token =
    | Word(text: string)
    | Quoted(name: string)
    | Numbered(n: nat)
    | Symbol(text: string)

  /** How many leading characters may belong to a word. */
  function PartRun(s: string): (k: nat)
    ensures k <= |s|
  {
    if s != "" && IsPart(s[0]) then 1 + PartRun(s[1..]) else 0
  }

  function DigitRun(s: string): (k: nat)
    ensures k <= |s|
    ensures forall i :: 0 <= i < k ==> IsDigit(s[i])
  {
    if s != "" && IsDigit(s[0]) then 1 + DigitRun(s[1..]) else 0
  }

  /** The tokens of a text, longest match first; `quote` delimits identifiers. */
  function Lex(quote: char, s: string): seq<Token>
    decreases |s|
  {
    if s == "" then []
    else if s[0] == ' ' then Lex(quote, s[1..])
    else if s[0] == quote && SplitOnce(s[1..], quote).Some? then
      var (name, rest) := SplitOnce(s[1..], quote).value;
      [Quoted(name)] + Lex(quote, rest)
    else if s[0] == '$' && DigitRun(s[1..]) > 0 then
      var k := DigitRun(s[1..]);
      [Numbered(DecimalValue(s[1..][..k]))] + Lex(quote, s[1..][k..])
    else if IsStart(s[0]) then
      var k := PartRun(s);
      [Word(s[..k])] + Lex(quote, s[k..])
    else if s[0] in "<>!" && |s| > 1 && s[1] == '=' then
      [Symbol(s[..2])] + Lex(quote, s[2..])
    else
      [Symbol([s[0]])] + Lex(quote, s[1..])
  }

  // ---------- parser ----------

  /** How placeholders are bound: by number after `offset`, or by order of appearance. */
  datatype Binding<+V> = Binding(numbered: bool, offset: nat, params: seq<V>)

  /** What is left to read, and how many placeholders were read. */
  datatype Cursor = Cursor(tokens: seq<Token>, taken: nat)

  datatype Parsed<+T> = Fail | Ok(value: T, next: Cursor)

  function Skip(c: Cursor, k: nat): Cursor
    requires k <= |c.tokens|
  {
    Cursor(c.tokens[k..], c.taken)
  }

  function ReadParam<V>(b: Binding<V>, c: Cursor): (r: Parsed<V>)
    ensures r.Ok? ==> |r.next.tokens| < |c.tokens|
  {
    if c.tokens == [] then Fail
    else match c.tokens[0]
      case Numbered(k) =>
        if b.numbered && b.offset < k <= b.offset + |b.params| then
          Ok(b.params[k - b.offset - 1], Cursor(c.tokens[1..], c.taken + 1))
        else Fail
      case Symbol(text) =>
        if text == "?" && !b.numbered && c.taken < |b.params| then
          Ok(b.params[c.taken], Cursor(c.tokens[1..], c.taken + 1))
        else Fail
      case _ => Fail
  }

  /** The rest of a value list: placeholders separated by commas, then the closing parenthesis. */
  function ReadParams<V>(b: Binding<V>, c: Cursor): (r: Parsed<seq<V>>)
    ensures r.Ok? ==> |r.next.tokens| < |c.tokens|
    decreases |c.tokens|
  {
    match ReadParam(b, c)
    case Fail => Fail
    case Ok(value, c1) =>
      if [Symbol(")")] <= c1.tokens then Ok([value], Skip(c1, 1))
      else if [Symbol(",")] <= c1.tokens then
        match ReadParams(b, Skip(c1, 1))
        case Fail => Fail
        case Ok(values, c2) => Ok([value] + values, c2)
      else Fail
  }

  function ReadName(c: Cursor): (r: Parsed<string>)
    ensures r.Ok? ==> |r.next.tokens| < |c.tokens|
  {
    if c.tokens == [] || !c.tokens[0].Quoted? then Fail
    else if |c.tokens| > 2 && c.tokens[1] == Symbol(".") && c.tokens[2].Quoted? then
      Ok(c.tokens[0].name + "." + c.tokens[2].name, Skip(c, 3))
    else Ok(c.tokens[0].name, Skip(c, 1))
  }

  function ReadOp(t: Token): Option<CompareOp> {
    if t == Symbol("=") then Some(Eq)
    else if t == Symbol("!=") then Some(Ne)
    else if t == Symbol(">") then Some(Gt)
    else if t == Symbol("<") then Some(Lt)
    else if t == Symbol(">=") then Some(Gte)
    else if t == Symbol("<=") then Some(Lte)
    else None
  }

  /** The right-hand side of a comparison: a server expression, a placeholder or a column. */
  function ReadComparison<V>(b: Binding<V>, field: string, op: CompareOp, c: Cursor): (r: Parsed<CondNode<V>>)
    ensures r.Ok? ==> |r.next.tokens| < |c.tokens|
  {
    if [Word("UNIX_TIMESTAMP"), Symbol("("), Symbol(")")] <= c.tokens then
      var c1 := Skip(c, 3);
      if [Symbol("+")] <= c1.tokens then
        match ReadParam(b, Skip(c1, 1))
        case Fail => Fail
        case Ok(seconds, c2) => Ok(ColumnExpr(field, op, "UNIX_TIMESTAMP() + ?", Some(seconds)), c2)
      else Ok(ColumnExpr(field, op, "UNIX_TIMESTAMP()", None), c1)
    else match ReadParam(b, c)
      case Ok(value, c1) => Ok(Compare(op, field, value), c1)
      case Fail =>
        match ReadName(c)
        case Fail => Fail
        case Ok(right, c1) => Ok(ColumnComparison(field, op, right), c1)
  }

  function ReadBetween<V>(b: Binding<V>, field: string, c: Cursor): (r: Parsed<CondNode<V>>)
    ensures r.Ok? ==> |r.next.tokens| < |c.tokens|
  {
    match ReadParam(b, c)
    case Fail => Fail
    case Ok(low, c1) =>
      if [Word("AND")] <= c1.tokens then
        match ReadParam(b, Skip(c1, 1))
        case Fail => Fail
        case Ok(high, c2) => Ok(Between(field, low, high), c2)
      else Fail
  }

  function ReadIn<V>(b: Binding<V>, negated: bool, field: string, c: Cursor): (r: Parsed<CondNode<V>>)
    ensures r.Ok? ==> |r.next.tokens| < |c.tokens|
  {
    match ReadParams(b, c)
    case Fail => Fail
    case Ok(values, c1) => Ok(InList(negated, field, values), c1)
  }

  /** What follows a column, except a subquery. */
  function ReadTail<V>(b: Binding<V>, field: string, c: Cursor): (r: Parsed<CondNode<V>>)
    ensures r.Ok? ==> |r.next.tokens| < |c.tokens|
  {
    if c.tokens == [] then Fail
    else if ReadOp(c.tokens[0]).Some? then ReadComparison(b, field, ReadOp(c.tokens[0]).value, Skip(c, 1))
    else if [Word("BETWEEN")] <= c.tokens then ReadBetween(b, field, Skip(c, 1))
    else if [Word("LIKE")] <= c.tokens then
      match ReadParam(b, Skip(c, 1))
      case Fail => Fail
      case Ok(pattern, c1) => Ok(Like(field, pattern), c1)
    else if [Word("IS"), Word("NULL")] <= c.tokens then Ok(IsNull(false, field), Skip(c, 2))
    else if [Word("IS"), Word("NOT"), Word("NULL")] <= c.tokens then Ok(IsNull(true, field), Skip(c, 3))
    else if [Word("IN"), Symbol("(")] <= c.tokens then ReadIn(b, false, field, Skip(c, 2))
    else if [Word("NOT"), Word("IN"), Symbol("(")] <= c.tokens then ReadIn(b, true, field, Skip(c, 3))
    else Fail
  }

  /** A conjunction of one condition is that condition. */
  function Conjunction<V>(cs: seq<CondNode<V>>): CondNode<V>
    requires cs != []
  {
    if |cs| == 1 then cs[0] else Group(And, cs)
  }

  /** A disjunction of conjunctions, as a tree. */
  function Disjunction<V>(ds: seq<seq<CondNode<V>>>): CondNode<V>
    requires ds != [] && forall i :: 0 <= i < |ds| ==> ds[i] != []
  {
    if |ds| == 1 then Conjunction(ds[0])
    else Group(Or, seq(|ds|, i requires 0 <= i < |ds| => Conjunction(ds[i])))
  }

  /** A parenthesised expression, EXISTS, or a predicate on a column. */
  function ReadFactor<V>(b: Binding<V>, c: Cursor): (r: Parsed<CondNode<V>>)
    ensures r.Ok? ==> |r.next.tokens| < |c.tokens|
    decreases |c.tokens|, 0
  {
    if [Symbol("(")] <= c.tokens then
      match ReadExpression(b, Skip(c, 1))
      case Fail => Fail
      case Ok(ds, c1) => if [Symbol(")")] <= c1.tokens then Ok(Disjunction(ds), Skip(c1, 1)) else Fail
    else if [Word("EXISTS"), Symbol("(")] <= c.tokens then
      match ReadSubquery(b, Skip(c, 2))
      case Fail => Fail
      case Ok(q, c1) => Ok(Exists(false, q), c1)
    else if [Word("NOT"), Word("EXISTS"), Symbol("(")] <= c.tokens then
      match ReadSubquery(b, Skip(c, 3))
      case Fail => Fail
      case Ok(q, c1) => Ok(Exists(true, q), c1)
    else match ReadName(c)
      case Fail => Fail
      case Ok(field, c1) =>
        if [Word("IN"), Symbol("("), Word("SELECT")] <= c1.tokens then
          match ReadSubquery(b, Skip(c1, 2))
          case Fail => Fail
          case Ok(q, c2) => Ok(InSubquery(field, q), c2)
        else ReadTail(b, field, c1)
  }

  /** A SELECT of one column from one table, and the parenthesis that closes it. */
  function ReadSubquery<V>(b: Binding<V>, c: Cursor): (r: Parsed<SubqueryNode<V>>)
    ensures r.Ok? ==> |r.next.tokens| < |c.tokens|
    decreases |c.tokens|, 0
  {
    if !([Word("SELECT")] <= c.tokens) then Fail
    else match ReadName(Skip(c, 1))
      case Fail => Fail
      case Ok(field, c1) =>
        if |c1.tokens| < 3 || c1.tokens[0] != Word("FROM") || !c1.tokens[1].Quoted? then Fail
        else
          var table, c2 := c1.tokens[1].name, Skip(c1, 2);
          if [Symbol(")")] <= c2.tokens then Ok(SubqueryNode(table, field, []), Skip(c2, 1))
          else if [Word("WHERE")] <= c2.tokens then
            match ReadExpression(b, Skip(c2, 1))
            case Fail => Fail
            case Ok(ds, c3) =>
              if [Symbol(")")] <= c3.tokens then
                Ok(SubqueryNode(table, field, if |ds| == 1 then ds[0] else [Disjunction(ds)]), Skip(c3, 1))
              else Fail
          else Fail
  }

  /** Factors joined by AND. */
  function ReadConjuncts<V>(b: Binding<V>, c: Cursor): (r: Parsed<seq<CondNode<V>>>)
    ensures r.Ok? ==> |r.next.tokens| < |c.tokens| && r.value != []
    decreases |c.tokens|, 1
  {
    match ReadFactor(b, c)
    case Fail => Fail
    case Ok(t, c1) =>
      if [Word("AND")] <= c1.tokens then
        match ReadConjuncts(b, Skip(c1, 1))
        case Fail => Fail
        case Ok(ts, c2) => Ok([t] + ts, c2)
      else Ok([t], c1)
  }

  /** Conjunctions joined by OR. */
  function ReadExpression<V>(b: Binding<V>, c: Cursor): (r: Parsed<seq<seq<CondNode<V>>>>)
    ensures r.Ok? ==> |r.next.tokens| < |c.tokens| && r.value != []
    ensures r.Ok? ==> forall i :: 0 <= i < |r.value| ==> r.value[i] != []
    decreases |c.tokens|, 2
  {
    match ReadConjuncts(b, c)
    case Fail => Fail
    case Ok(ts, c1) =>
      if [Word("OR")] <= c1.tokens then
        match ReadExpression(b, Skip(c1, 1))
        case Fail => Fail
        case Ok(ds, c2) => Ok([ts] + ds, c2)
      else Ok([ts], c1)
  }

  /** Reads a whole condition; every placeholder must be bound and every value used. */
  function Read<V>(d: Dialect, offset: nat, sql: string, params: seq<V>): Option<CondNode<V>> {
    match ReadExpression(Binding(d.numbered, offset, params), Cursor(Lex(d.quote, sql), 0))
    case Fail => None
    case Ok(ds, c) => if c.tokens == [] && c.taken == |params| then Some(Disjunction(ds)) else None
  }
}
