/** The lexer splits rendered text into exactly the tokens the renderer meant. */
module SqlLexing {
  import opened Wrappers
  import opened Sequences
  import opened Identifiers
  import opened Numerals
  import opened Conditions
  import opened SqlReader

  /**
   What the conversions from the public condition trees guarantee: server expressions occur only in
   MySQL trees, and only as one of the two fixed texts with the parameter that text calls for.
   */
  predicate Converted<V>(d: Dialect, t: CondNode<V>)
    decreases t, 1
  {
    match t
    case ColumnExpr(_, _, fragment, param) =>
      !d.numbered && fragment == if param.Some? then "UNIX_TIMESTAMP() + ?" else "UNIX_TIMESTAMP()"
    case Exists(_, q) => ConvertedAll(d, q.conditions)
    case InSubquery(_, q) => ConvertedAll(d, q.conditions)
    case Group(_, cs) => ConvertedAll(d, cs)
    case _ => true
  }

  predicate ConvertedAll<V>(d: Dialect, cs: seq<CondNode<V>>)
    decreases cs, 0
  {
    cs == [] || (Converted(d, cs[0]) && ConvertedAll(d, cs[1..]))
  }

  predicate IsDialect(d: Dialect) {
    d == MYSQL || d == POSTGRES
  }

  /** Text that cannot extend the token before it. */
  predicate Boundary(rest: string) {
    rest == "" || rest[0] == ' ' || rest[0] == ')' || rest[0] == ','
  }

  // ---------- the tokens of a condition ----------

  function NameTokens(field: string): seq<Token>
    requires IsQualified(field)
  {
    match ParseQualified(field).value
    case Unqualified(name) => [Quoted(name)]
    case Qualified(qualifier, name) => [Quoted(qualifier), Symbol("."), Quoted(name)]
  }

  function ParamToken(d: Dialect, n: nat): Token {
    if d.numbered then Numbered(n) else Symbol("?")
  }

  function ListTokens(d: Dialect, count: nat, n: nat): seq<Token> {
    if count == 0 then []
    else if count == 1 then [ParamToken(d, n + 1)]
    else ListTokens(d, count - 1, n) + [Symbol(",")] + [ParamToken(d, n + count)]
  }

  function ConnectiveToken(c: Connective): Token {
    Word(if c.And? then "AND" else "OR")
  }

  function ExprTokens(hasParam: bool): seq<Token> {
    if hasParam then [Word("UNIX_TIMESTAMP"), Symbol("("), Symbol(")"), Symbol("+"), Symbol("?")]
    else [Word("UNIX_TIMESTAMP"), Symbol("("), Symbol(")")]
  }

  function InTokens(negated: bool): seq<Token> {
    if negated then [Word("NOT"), Word("IN"), Symbol("(")] else [Word("IN"), Symbol("(")]
  }

  function IsTokens(negated: bool): seq<Token> {
    if negated then [Word("IS"), Word("NOT"), Word("NULL")] else [Word("IS"), Word("NULL")]
  }

  function ExistsTokens(negated: bool): seq<Token> {
    if negated then [Word("NOT"), Word("EXISTS"), Symbol("(")] else [Word("EXISTS"), Symbol("(")]
  }

  function Tokens<V>(d: Dialect, t: CondNode<V>, n: nat): seq<Token>
    requires Accepted(t)
    decreases t, 1
  {
    match t
    case Compare(op, field, _) => NameTokens(field) + [Symbol(OpText(op))] + [ParamToken(d, n + 1)]
    case InList(negated, field, values) =>
      NameTokens(field) + InTokens(negated) + ListTokens(d, |values|, n) + [Symbol(")")]
    case Between(field, _, _) =>
      NameTokens(field) + [Word("BETWEEN")] + [ParamToken(d, n + 1)] + [Word("AND")] + [ParamToken(d, n + 2)]
    case Like(field, _) => NameTokens(field) + [Word("LIKE")] + [ParamToken(d, n + 1)]
    case IsNull(negated, field) => NameTokens(field) + IsTokens(negated)
    case ColumnComparison(left, op, right) => NameTokens(left) + [Symbol(OpText(op))] + NameTokens(right)
    case ColumnExpr(field, op, _, param) => NameTokens(field) + [Symbol(OpText(op))] + ExprTokens(param.Some?)
    case Exists(negated, q) => ExistsTokens(negated) + SubqueryTokens(d, q, n) + [Symbol(")")]
    case InSubquery(field, q) => NameTokens(field) + InTokens(false) + SubqueryTokens(d, q, n) + [Symbol(")")]
    case Group(connective, cs) =>
      if |cs| == 1 then Tokens(d, cs[0], n) else [Symbol("(")] + TokensAll(d, cs, connective, n) + [Symbol(")")]
  }

  function TokensAll<V>(d: Dialect, cs: seq<CondNode<V>>, c: Connective, n: nat): seq<Token>
    requires AcceptedAll(cs)
    decreases cs, 0
  {
    if cs == [] then []
    else if |cs| == 1 then Tokens(d, cs[0], n)
    else Tokens(d, cs[0], n) + [ConnectiveToken(c)] + TokensAll(d, cs[1..], c, After(n, cs[0]))
  }

  /** A subquery up to its table. */
  function SelectTokens(field: string, table: string): seq<Token>
    requires IsQualified(field)
  {
    [Word("SELECT")] + NameTokens(field) + [Word("FROM")] + [Quoted(table)]
  }

  function SubqueryTokens<V>(d: Dialect, q: SubqueryNode<V>, n: nat): seq<Token>
    requires AcceptedSubquery(q)
    decreases q, 1
  {
    SelectTokens(q.field, q.table)
      + if q.conditions == [] then [] else [Word("WHERE")] + TokensAll(d, q.conditions, And, n)
  }

  // ---------- single tokens ----------

  lemma {:induction false} PartRunOf(w: string, rest: string)
    requires forall i :: 0 <= i < |w| ==> IsPart(w[i])
    requires rest == "" || !IsPart(rest[0])
    ensures PartRun(w + rest) == |w|
  {
    if w == "" {
      assert w + rest == rest;
    } else {
      assert (w + rest)[1..] == w[1..] + rest;
      PartRunOf(w[1..], rest);
    }
  }

  lemma LexWord(q: char, w: string, rest: string)
    requires IsIdentifier(w) && !IsPart(q) && (rest == "" || !IsPart(rest[0]))
    ensures Lex(q, w + rest) == [Word(w)] + Lex(q, rest)
  {
    PartRunOf(w, rest);
    var s := w + rest;
    assert s[0] == w[0] && s[..|w|] == w && s[|w|..] == rest;
  }

  lemma LexSymbol(q: char, c: char, rest: string)
    requires c in "(),.?+" && q != c
    ensures Lex(q, [c] + rest) == [Symbol([c])] + Lex(q, rest)
  {
    assert ([c] + rest)[1..] == rest;
  }

  lemma LexKeyword(q: char, w: string, rest: string)
    requires IsIdentifier(w) && !IsPart(q)
    ensures Lex(q, (" " + w + " ") + rest) == [Word(w)] + Lex(q, rest)
  {
    assert (" " + w + " ") + rest == " " + (w + (" " + rest));
    LexWord(q, w, " " + rest);
  }

  /** A word after a space, where what follows cannot belong to it. */
  lemma LexLastWord(q: char, w: string, rest: string)
    requires IsIdentifier(w) && !IsPart(q) && Boundary(rest)
    ensures Lex(q, (" " + w) + rest) == [Word(w)] + Lex(q, rest)
  {
    assert (" " + w) + rest == " " + (w + rest);
    LexWord(q, w, rest);
  }

  lemma LexBareOp(q: char, op: CompareOp, after: string)
    requires (q == '`' || q == '"') && after != "" && after[0] == ' '
    ensures Lex(q, OpText(op) + after) == [Symbol(OpText(op))] + Lex(q, after)
  {
    var o := OpText(op);
    var s := o + after;
    assert s[0] == o[0] && s[1] == (if |o| == 1 then ' ' else o[1]);
    assert s[|o|..] == after && s[..|o|] == o;
  }

  lemma LexOp(q: char, op: CompareOp, rest: string)
    requires q == '`' || q == '"'
    ensures Lex(q, (" " + OpText(op) + " ") + rest) == [Symbol(OpText(op))] + Lex(q, rest)
  {
    Nest3(" ", OpText(op), " ", rest);
    LexBareOp(q, op, " " + rest);
  }

  lemma {:induction false} DigitRunOf(w: string, rest: string)
    requires forall i :: 0 <= i < |w| ==> IsDigit(w[i])
    requires rest == "" || !IsDigit(rest[0])
    ensures DigitRun(w + rest) == |w|
  {
    if w == "" {
      assert w + rest == rest;
    } else {
      assert (w + rest)[1..] == w[1..] + rest;
      DigitRunOf(w[1..], rest);
    }
  }

  lemma LexParam(d: Dialect, n: nat, rest: string)
    requires IsDialect(d) && Boundary(rest)
    ensures Lex(d.quote, Placeholder(d, n) + rest) == [ParamToken(d, n)] + Lex(d.quote, rest)
  {
    if d.numbered {
      var digits := Decimal(n);
      var s := Placeholder(d, n) + rest;
      DecimalReadsBack(n);
      DigitRunOf(digits, rest);
      assert s[0] == '$' && s[1..] == digits + rest;
      assert s[1..][..|digits|] == digits && s[1..][|digits|..] == rest;
    } else {
      LexSymbol(d.quote, '?', rest);
    }
  }

  lemma LexQuoted(q: char, name: string, rest: string)
    requires (q == '`' || q == '"') && IsIdentifier(name)
    ensures Lex(q, QuotePart(name, q) + rest) == [Quoted(name)] + Lex(q, rest)
  {
    ReadQuotedPart(name, q, rest);
  }

  lemma LexTwoNames(q: char, a: string, b: string, rest: string)
    requires (q == '`' || q == '"') && IsIdentifier(a) && IsIdentifier(b)
    ensures Lex(q, (QuotePart(a, q) + "." + QuotePart(b, q)) + rest)
         == ([Quoted(a)] + [Symbol(".")] + [Quoted(b)]) + Lex(q, rest)
  {
    Nest3(QuotePart(a, q), ".", QuotePart(b, q), rest);
    LexQuoted(q, a, "." + (QuotePart(b, q) + rest));
    LexSymbol(q, '.', QuotePart(b, q) + rest);
    LexQuoted(q, b, rest);
    Nest3([Quoted(a)], [Symbol(".")], [Quoted(b)], Lex(q, rest));
  }

  lemma LexName(q: char, field: string, rest: string)
    requires (q == '`' || q == '"') && IsQualified(field)
    ensures Lex(q, QuoteQualified(field, q) + rest) == NameTokens(field) + Lex(q, rest)
  {
    match ParseQualified(field).value
    case Unqualified(name) =>
      LexQuoted(q, name, rest);
    case Qualified(a, b) =>
      LexTwoNames(q, a, b, rest);
  }

  // ---------- composition ----------

  lemma Compose2(q: char, a: string, ta: seq<Token>, b: string, tb: seq<Token>, rest: string)
    requires Lex(q, a + (b + rest)) == ta + Lex(q, b + rest)
    requires Lex(q, b + rest) == tb + Lex(q, rest)
    ensures Lex(q, (a + b) + rest) == (ta + tb) + Lex(q, rest)
  {
    Append2(a, b, rest);
    Append2(ta, tb, Lex(q, rest));
  }

  lemma Compose3(q: char, a: string, ta: seq<Token>, b: string, tb: seq<Token>, c: string, tc: seq<Token>, rest: string)
    requires Lex(q, a + (b + (c + rest))) == ta + Lex(q, b + (c + rest))
    requires Lex(q, b + (c + rest)) == tb + Lex(q, c + rest)
    requires Lex(q, c + rest) == tc + Lex(q, rest)
    ensures Lex(q, (a + b + c) + rest) == (ta + tb + tc) + Lex(q, rest)
  {
    Nest3(a, b, c, rest);
    Nest3(ta, tb, tc, Lex(q, rest));
  }

  lemma Compose4(q: char, a: string, ta: seq<Token>, b: string, tb: seq<Token>, c: string, tc: seq<Token>,
                 e: string, te: seq<Token>, rest: string)
    requires Lex(q, a + (b + (c + (e + rest)))) == ta + Lex(q, b + (c + (e + rest)))
    requires Lex(q, b + (c + (e + rest))) == tb + Lex(q, c + (e + rest))
    requires Lex(q, c + (e + rest)) == tc + Lex(q, e + rest)
    requires Lex(q, e + rest) == te + Lex(q, rest)
    ensures Lex(q, (a + b + c + e) + rest) == (ta + tb + tc + te) + Lex(q, rest)
  {
    Compose3(q, a, ta, b, tb, c, tc, e + rest);
    Compose2(q, a + b + c, ta + tb + tc, e, te, rest);
  }

  // ---------- fixed texts ----------

  lemma LexIn(q: char, negated: bool, rest: string)
    requires q == '`' || q == '"'
    ensures Lex(q, (if negated then " NOT IN (" else " IN (") + rest) == InTokens(negated) + Lex(q, rest)
  {
    assert " IN (" == (" " + "IN" + " ") + "(";
    LexKeyword(q, "IN", "(" + rest);
    LexSymbol(q, '(', rest);
    Compose2(q, " " + "IN" + " ", [Word("IN")], "(", [Symbol("(")], rest);
    assert [Word("IN")] + [Symbol("(")] == InTokens(false);
    if negated {
      assert " NOT IN (" == (" " + "NOT") + " IN (";
      LexLastWord(q, "NOT", " IN (" + rest);
      Compose2(q, " " + "NOT", [Word("NOT")], " IN (", InTokens(false), rest);
      assert [Word("NOT")] + InTokens(false) == InTokens(true);
    }
  }

  lemma LexIs(q: char, negated: bool, rest: string)
    requires (q == '`' || q == '"') && Boundary(rest)
    ensures Lex(q, (if negated then " IS NOT NULL" else " IS NULL") + rest) == IsTokens(negated) + Lex(q, rest)
  {
    var wIs, wNot, wNull := " " + "IS", " " + "NOT", " " + "NULL";
    LexLastWord(q, "NULL", rest);
    if negated {
      assert " IS NOT NULL" == wIs + wNot + wNull;
      LexLastWord(q, "NOT", wNull + rest);
      LexLastWord(q, "IS", wNot + (wNull + rest));
      Compose3(q, wIs, [Word("IS")], wNot, [Word("NOT")], wNull, [Word("NULL")], rest);
      assert [Word("IS")] + [Word("NOT")] + [Word("NULL")] == IsTokens(true);
    } else {
      assert " IS NULL" == wIs + wNull;
      LexLastWord(q, "IS", wNull + rest);
      Compose2(q, wIs, [Word("IS")], wNull, [Word("NULL")], rest);
      assert [Word("IS")] + [Word("NULL")] == IsTokens(false);
    }
  }

  lemma LexNotExists(q: char, rest: string)
    requires q == '`' || q == '"'
    ensures Lex(q, "NOT EXISTS (" + rest) == ExistsTokens(true) + Lex(q, rest)
  {
    var spaced := " " + "EXISTS" + " ";
    assert "NOT EXISTS (" == "NOT" + spaced + "(";
    LexSymbol(q, '(', rest);
    LexKeyword(q, "EXISTS", "(" + rest);
    LexWord(q, "NOT", spaced + ("(" + rest));
    Compose3(q, "NOT", [Word("NOT")], spaced, [Word("EXISTS")], "(", [Symbol("(")], rest);
    assert [Word("NOT")] + [Word("EXISTS")] + [Symbol("(")] == ExistsTokens(true);
  }

  lemma LexExists(q: char, negated: bool, rest: string)
    requires q == '`' || q == '"'
    ensures Lex(q, (if negated then "NOT EXISTS (" else "EXISTS (") + rest) == ExistsTokens(negated) + Lex(q, rest)
  {
    if negated {
      LexNotExists(q, rest);
    } else {
      assert "EXISTS (" == "EXISTS" + " (";
      assert " (" + rest == " " + ("(" + rest);
      LexSymbol(q, '(', rest);
      LexWord(q, "EXISTS", " (" + rest);
      Compose2(q, "EXISTS", [Word("EXISTS")], " (", [Symbol("(")], rest);
      assert [Word("EXISTS")] + [Symbol("(")] == ExistsTokens(false);
    }
  }

  lemma LexSeparator(q: char, c: Connective, rest: string)
    requires q == '`' || q == '"'
    ensures Lex(q, Separator(c) + rest) == [ConnectiveToken(c)] + Lex(q, rest)
  {
    assert Separator(c) == " " + (if c.And? then "AND" else "OR") + " ";
    LexKeyword(q, if c.And? then "AND" else "OR", rest);
  }

  /** A symbol between spaces. */
  lemma LexSpaced(q: char, c: char, rest: string)
    requires c in "(),.?+" && q != c
    ensures Lex(q, (" " + [c] + " ") + rest) == [Symbol([c])] + Lex(q, rest)
  {
    assert (" " + [c] + " ") + rest == " " + ([c] + (" " + rest));
    LexSymbol(q, c, " " + rest);
  }

  lemma LexCall(q: char, rest: string)
    requires q == '`' || q == '"'
    ensures Lex(q, "UNIX_TIMESTAMP()" + rest) == ExprTokens(false) + Lex(q, rest)
  {
    var name := "UNIX_TIMESTAMP";
    assert "UNIX_TIMESTAMP()" == name + "(" + ")";
    LexWord(q, name, "(" + (")" + rest));
    LexSymbol(q, '(', ")" + rest);
    LexSymbol(q, ')', rest);
    Compose3(q, name, [Word(name)], "(", [Symbol("(")], ")", [Symbol(")")], rest);
    assert [Word(name)] + [Symbol("(")] + [Symbol(")")] == ExprTokens(false);
  }

  lemma LexFragment(q: char, hasParam: bool, rest: string)
    requires q == '`' || q == '"'
    ensures Lex(q, (if hasParam then "UNIX_TIMESTAMP() + ?" else "UNIX_TIMESTAMP()") + rest)
         == ExprTokens(hasParam) + Lex(q, rest)
  {
    if hasParam {
      var call, plus := "UNIX_TIMESTAMP()", " " + "+" + " ";
      assert "UNIX_TIMESTAMP() + ?" == call + plus + "?";
      LexCall(q, plus + ("?" + rest));
      LexSpaced(q, '+', "?" + rest);
      LexSymbol(q, '?', rest);
      Compose3(q, call, ExprTokens(false), plus, [Symbol("+")], "?", [Symbol("?")], rest);
      assert ExprTokens(false) + [Symbol("+")] + [Symbol("?")] == ExprTokens(true);
    } else {
      LexCall(q, rest);
    }
  }

  lemma LexComma(q: char, rest: string)
    requires q == '`' || q == '"'
    ensures Lex(q, ", " + rest) == [Symbol(",")] + Lex(q, rest)
  {
    assert ", " + rest == [','] + (" " + rest);
    LexSymbol(q, ',', " " + rest);
    assert (" " + rest)[1..] == rest;
  }

  lemma CommaIsBoundary(rest: string)
    ensures Boundary(", " + rest)
  {
  }

  lemma {:induction false} LexList(d: Dialect, count: nat, n: nat, rest: string)
    requires IsDialect(d) && count > 0 && Boundary(rest)
    ensures Lex(d.quote, PlaceholderList(d, count, n) + rest) == ListTokens(d, count, n) + Lex(d.quote, rest)
  {
    if count == 1 {
      LexParam(d, n + 1, rest);
    } else {
      var last := Placeholder(d, n + count);
      LexParam(d, n + count, rest);
      CommaIsBoundary(last + rest);
      LexList(d, count - 1, n, ", " + (last + rest));
      LexLonger(d.quote, PlaceholderList(d, count - 1, n), ListTokens(d, count - 1, n),
        last, ParamToken(d, n + count), rest);
    }
  }

  lemma LexLonger(q: char, list: string, tl: seq<Token>, last: string, t: Token, rest: string)
    requires q == '`' || q == '"'
    requires Lex(q, list + (", " + (last + rest))) == tl + Lex(q, ", " + (last + rest))
    requires Lex(q, last + rest) == [t] + Lex(q, rest)
    ensures Lex(q, (list + ", " + last) + rest) == (tl + [Symbol(",")] + [t]) + Lex(q, rest)
  {
    LexComma(q, last + rest);
    Compose3(q, list, tl, ", ", [Symbol(",")], last, [t], rest);
  }

  // ---------- conditions ----------

  /** A field, something between and something after: all conditions on one column. */
  lemma LexBinary(d: Dialect, field: string, middle: string, tm: seq<Token>, last: string, tl: seq<Token>, rest: string)
    requires IsDialect(d) && IsQualified(field)
    requires Lex(d.quote, middle + (last + rest)) == tm + Lex(d.quote, last + rest)
    requires Lex(d.quote, last + rest) == tl + Lex(d.quote, rest)
    ensures Lex(d.quote, (QuoteQualified(field, d.quote) + middle + last) + rest)
         == (NameTokens(field) + tm + tl) + Lex(d.quote, rest)
  {
    LexName(d.quote, field, middle + (last + rest));
    Compose3(d.quote, QuoteQualified(field, d.quote), NameTokens(field), middle, tm, last, tl, rest);
  }

  ghost predicate LexesTo<V>(d: Dialect, t: CondNode<V>, n: nat, rest: string)
    requires Accepted(t)
  {
    Lex(d.quote, Sql(d, t, n) + rest) == Tokens(d, t, n) + Lex(d.quote, rest)
  }

  lemma LexCompare<V>(d: Dialect, op: CompareOp, field: string, value: V, n: nat, rest: string)
    requires IsDialect(d) && IsQualified(field) && Boundary(rest)
    ensures LexesTo(d, Compare(op, field, value), n, rest)
  {
    var middle, last := " " + OpText(op) + " ", Placeholder(d, n + 1);
    LexOp(d.quote, op, last + rest);
    LexParam(d, n + 1, rest);
    LexBinary(d, field, middle, [Symbol(OpText(op))], last, [ParamToken(d, n + 1)], rest);
  }

  lemma LexLike<V>(d: Dialect, field: string, value: V, n: nat, rest: string)
    requires IsDialect(d) && IsQualified(field) && Boundary(rest)
    ensures LexesTo(d, Like(field, value), n, rest)
  {
    var last := Placeholder(d, n + 1);
    assert " LIKE " == " " + "LIKE" + " ";
    LexKeyword(d.quote, "LIKE", last + rest);
    LexParam(d, n + 1, rest);
    LexBinary(d, field, " LIKE ", [Word("LIKE")], last, [ParamToken(d, n + 1)], rest);
  }

  lemma LexBetween<V>(d: Dialect, field: string, low: V, high: V, n: nat, rest: string)
    requires IsDialect(d) && IsQualified(field) && Boundary(rest)
    ensures LexesTo(d, Between(field, low, high), n, rest)
  {
    var q, first, second := d.quote, Placeholder(d, n + 1), Placeholder(d, n + 2);
    var after := " AND " + (second + rest);
    assert " BETWEEN " == " " + "BETWEEN" + " ";
    LexKeyword(q, "BETWEEN", first + after);
    LexParam(d, n + 1, after);
    LexBinary(d, field, " BETWEEN ", [Word("BETWEEN")], first, [ParamToken(d, n + 1)], after);
    LexSeparator(q, And, second + rest);
    LexParam(d, n + 2, rest);
    Compose3(q, QuoteQualified(field, q) + " BETWEEN " + first,
      NameTokens(field) + [Word("BETWEEN")] + [ParamToken(d, n + 1)],
      " AND ", [Word("AND")], second, [ParamToken(d, n + 2)], rest);
  }

  lemma LexInList<V>(d: Dialect, negated: bool, field: string, values: seq<V>, n: nat, rest: string)
    requires IsDialect(d) && IsQualified(field) && values != []
    ensures LexesTo(d, InList(negated, field, values), n, rest)
  {
    var q, opening, list := d.quote, if negated then " NOT IN (" else " IN (", PlaceholderList(d, |values|, n);
    LexIn(q, negated, list + (")" + rest));
    LexList(d, |values|, n, ")" + rest);
    LexBinary(d, field, opening, InTokens(negated), list, ListTokens(d, |values|, n), ")" + rest);
    LexSymbol(q, ')', rest);
    Compose2(q, QuoteQualified(field, q) + opening + list,
      NameTokens(field) + InTokens(negated) + ListTokens(d, |values|, n), ")", [Symbol(")")], rest);
  }

  lemma LexIsNull<V>(d: Dialect, negated: bool, field: string, n: nat, rest: string)
    requires IsDialect(d) && IsQualified(field) && Boundary(rest)
    ensures LexesTo<V>(d, IsNull(negated, field), n, rest)
  {
    var tail := if negated then " IS NOT NULL" else " IS NULL";
    LexName(d.quote, field, tail + rest);
    LexIs(d.quote, negated, rest);
    Compose2(d.quote, QuoteQualified(field, d.quote), NameTokens(field), tail, IsTokens(negated), rest);
  }

  lemma LexColumns<V>(d: Dialect, left: string, op: CompareOp, right: string, n: nat, rest: string)
    requires IsDialect(d) && IsQualified(left) && IsQualified(right)
    ensures LexesTo<V>(d, ColumnComparison(left, op, right), n, rest)
  {
    LexNameOpName(d, left, op, right, QuoteQualified(right, d.quote), rest);
  }

  lemma LexNameOpName(d: Dialect, left: string, op: CompareOp, right: string, last: string, rest: string)
    requires IsDialect(d) && IsQualified(left) && IsQualified(right) && last == QuoteQualified(right, d.quote)
    ensures Lex(d.quote, (QuoteQualified(left, d.quote) + (" " + OpText(op) + " ") + last) + rest)
         == (NameTokens(left) + [Symbol(OpText(op))] + NameTokens(right)) + Lex(d.quote, rest)
  {
    LexOp(d.quote, op, last + rest);
    LexName(d.quote, right, rest);
    LexBinary(d, left, " " + OpText(op) + " ", [Symbol(OpText(op))], last, NameTokens(right), rest);
  }

  lemma LexExpr<V>(d: Dialect, field: string, op: CompareOp, fragment: string, param: Option<V>, n: nat, rest: string)
    requires IsDialect(d) && IsQualified(field) && Converted(d, ColumnExpr(field, op, fragment, param))
    ensures LexesTo(d, ColumnExpr(field, op, fragment, param), n, rest)
  {
    var middle := " " + OpText(op) + " ";
    LexOp(d.quote, op, fragment + rest);
    LexFragment(d.quote, param.Some?, rest);
    LexBinary(d, field, middle, [Symbol(OpText(op))], fragment, ExprTokens(param.Some?), rest);
  }

  /** Text rendered from a condition lexes to the tokens of the condition. */
  lemma {:induction false} LexCondition<V>(d: Dialect, t: CondNode<V>, n: nat, rest: string)
    requires IsDialect(d) && Accepted(t) && Converted(d, t) && Boundary(rest)
    ensures LexesTo(d, t, n, rest)
    decreases t, 1
  {
    match t
    case Compare(op, field, value) => LexCompare(d, op, field, value, n, rest);
    case InList(negated, field, values) => LexInList(d, negated, field, values, n, rest);
    case Between(field, low, high) => LexBetween(d, field, low, high, n, rest);
    case Like(field, pattern) => LexLike(d, field, pattern, n, rest);
    case IsNull(negated, field) => LexIsNull<V>(d, negated, field, n, rest);
    case ColumnComparison(left, op, right) => LexColumns<V>(d, left, op, right, n, rest);
    case ColumnExpr(field, op, fragment, param) => LexExpr(d, field, op, fragment, param, n, rest);
    case Exists(negated, q) =>
      var opening, inner := if negated then "NOT EXISTS (" else "EXISTS (", SubquerySql(d, q, n);
      LexExists(d.quote, negated, inner + (")" + rest));
      LexSubquery(d, q, n, ")" + rest);
      LexSymbol(d.quote, ')', rest);
      Compose3(d.quote, opening, ExistsTokens(negated), inner, SubqueryTokens(d, q, n), ")", [Symbol(")")], rest);
    case InSubquery(field, q) =>
      var inner := SubquerySql(d, q, n);
      LexIn(d.quote, false, inner + (")" + rest));
      LexSubquery(d, q, n, ")" + rest);
      LexBinary(d, field, " IN (", InTokens(false), inner, SubqueryTokens(d, q, n), ")" + rest);
      LexSymbol(d.quote, ')', rest);
      Compose2(d.quote, QuoteQualified(field, d.quote) + " IN (" + inner,
        NameTokens(field) + InTokens(false) + SubqueryTokens(d, q, n), ")", [Symbol(")")], rest);
    case Group(connective, cs) =>
      if |cs| == 1 {
        LexCondition(d, cs[0], n, rest);
      } else {
        LexAll(d, cs, connective, n, ")" + rest);
        LexParenthesised(d.quote, SqlAll(d, cs, connective, n), TokensAll(d, cs, connective, n), rest);
      }
  }

  lemma LexParenthesised(q: char, inner: string, ti: seq<Token>, rest: string)
    requires q == '`' || q == '"'
    requires Lex(q, inner + (")" + rest)) == ti + Lex(q, ")" + rest)
    ensures Lex(q, ("(" + inner + ")") + rest) == ([Symbol("(")] + ti + [Symbol(")")]) + Lex(q, rest)
  {
    LexSymbol(q, '(', inner + (")" + rest));
    LexSymbol(q, ')', rest);
    Compose3(q, "(", [Symbol("(")], inner, ti, ")", [Symbol(")")], rest);
  }

  lemma {:induction false} LexAll<V>(d: Dialect, cs: seq<CondNode<V>>, c: Connective, n: nat, rest: string)
    requires IsDialect(d) && cs != [] && AcceptedAll(cs) && ConvertedAll(d, cs) && Boundary(rest)
    ensures Lex(d.quote, SqlAll(d, cs, c, n) + rest) == TokensAll(d, cs, c, n) + Lex(d.quote, rest)
    decreases cs, 1
  {
    if |cs| == 1 {
      LexCondition(d, cs[0], n, rest);
    } else {
      var head, tail, m := cs[0], cs[1..], After(n, cs[0]);
      var inner := SqlAll(d, tail, c, m);
      LexCondition(d, head, n, Separator(c) + (inner + rest));
      LexSeparator(d.quote, c, inner + rest);
      LexAll(d, tail, c, m, rest);
      Compose3(d.quote, Sql(d, head, n), Tokens(d, head, n), Separator(c), [ConnectiveToken(c)],
        inner, TokensAll(d, tail, c, m), rest);
    }
  }

  lemma LexSelect(d: Dialect, field: string, table: string, rest: string)
    requires IsDialect(d) && IsQualified(field) && IsIdentifier(table)
    ensures Lex(d.quote, ("SELECT " + QuoteQualified(field, d.quote) + " FROM " + QuotePart(table, d.quote)) + rest)
         == SelectTokens(field, table) + Lex(d.quote, rest)
  {
    assert "SELECT " == "SELECT" + " " && " FROM " == " " + "FROM" + " ";
    LexTwoWords(d.quote, "SELECT", field, "FROM", table, rest);
  }

  /** A word, a field, another word and a table. */
  lemma LexTwoWords(q: char, first: string, field: string, second: string, table: string, rest: string)
    requires (q == '`' || q == '"') && IsQualified(field) && IsIdentifier(table)
    requires IsIdentifier(first) && IsIdentifier(second)
    ensures Lex(q, ((first + " ") + QuoteQualified(field, q) + (" " + second + " ") + QuotePart(table, q)) + rest)
         == ([Word(first)] + NameTokens(field) + [Word(second)] + [Quoted(table)]) + Lex(q, rest)
  {
    var name, middle, quoted := QuoteQualified(field, q), " " + second + " ", QuotePart(table, q);
    LexQuoted(q, table, rest);
    LexKeyword(q, second, quoted + rest);
    LexName(q, field, middle + (quoted + rest));
    LexFirstWord(q, first, name + (middle + (quoted + rest)));
    Compose4(q, first + " ", [Word(first)], name, NameTokens(field), middle, [Word(second)],
      quoted, [Quoted(table)], rest);
  }

  /** A word at the start, before a space. */
  lemma LexFirstWord(q: char, w: string, rest: string)
    requires IsIdentifier(w) && !IsPart(q)
    ensures Lex(q, (w + " ") + rest) == [Word(w)] + Lex(q, rest)
  {
    assert (w + " ") + rest == w + (" " + rest);
    LexWord(q, w, " " + rest);
    assert (" " + rest)[1..] == rest;
  }

  lemma {:induction false} LexSubquery<V>(d: Dialect, sub: SubqueryNode<V>, n: nat, rest: string)
    requires IsDialect(d) && AcceptedSubquery(sub) && ConvertedAll(d, sub.conditions) && Boundary(rest)
    ensures Lex(d.quote, SubquerySql(d, sub, n) + rest) == SubqueryTokens(d, sub, n) + Lex(d.quote, rest)
    decreases sub, 1
  {
    var q := d.quote;
    var select := "SELECT " + QuoteQualified(sub.field, q) + " FROM " + QuotePart(sub.table, q);
    var ts := SelectTokens(sub.field, sub.table);
    if sub.conditions == [] {
      assert SubquerySql(d, sub, n) == select && SubqueryTokens(d, sub, n) == ts;
      LexSelect(d, sub.field, sub.table, rest);
    } else {
      var list, tl := SqlAll(d, sub.conditions, And, n), TokensAll(d, sub.conditions, And, n);
      LexAll(d, sub.conditions, And, n, rest);
      LexSelect(d, sub.field, sub.table, " WHERE " + (list + rest));
      LexWhere(q, select, ts, list, tl, rest);
    }
  }

  lemma LexWhere(q: char, select: string, ts: seq<Token>, list: string, tl: seq<Token>, rest: string)
    requires q == '`' || q == '"'
    requires Lex(q, select + (" WHERE " + (list + rest))) == ts + Lex(q, " WHERE " + (list + rest))
    requires Lex(q, list + rest) == tl + Lex(q, rest)
    ensures Lex(q, (select + (" WHERE " + list)) + rest) == (ts + ([Word("WHERE")] + tl)) + Lex(q, rest)
  {
    assert " WHERE " == " " + "WHERE" + " ";
    LexKeywordBetween(q, select, ts, " WHERE ", "WHERE", list, tl, rest);
  }

  /** A word between spaces, after text that ends at a boundary and before a list. */
  lemma LexKeywordBetween(q: char, before: string, tb: seq<Token>, middle: string, w: string,
                          list: string, tl: seq<Token>, rest: string)
    requires IsIdentifier(w) && !IsPart(q) && middle == " " + w + " "
    requires Lex(q, before + (middle + (list + rest))) == tb + Lex(q, middle + (list + rest))
    requires Lex(q, list + rest) == tl + Lex(q, rest)
    ensures Lex(q, (before + (middle + list)) + rest) == (tb + ([Word(w)] + tl)) + Lex(q, rest)
  {
    LexKeyword(q, w, list + rest);
    Compose3(q, before, tb, middle, [Word(w)], list, tl, rest);
    Append2(before, middle, list);
    Append2(tb, [Word(w)], tl);
  }
}
