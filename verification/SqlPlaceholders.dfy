/** Placeholder numbering, and the WHERE clause that renders its conditions one by one. */
module SqlPlaceholders {
  import opened Wrappers
  import opened Sequences
  import opened Identifiers
  import opened Conditions
  import opened SqlReader
  import opened SqlLexing

  predicate IsPlaceholder(t: Token) {
    t.Numbered? || t == Symbol("?")
  }

  function Placeholders(ts: seq<Token>): seq<Token> {
    if ts == [] then []
    else (if IsPlaceholder(ts[0]) then [ts[0]] else []) + Placeholders(ts[1..])
  }

  /** The placeholders of `count` parameters after the first n. */
  function Consecutive(d: Dialect, n: nat, count: nat): seq<Token> {
    seq(count, i requires 0 <= i < count => ParamToken(d, n + 1 + i))
  }

  lemma {:induction false} PlaceholdersConcat(a: seq<Token>, b: seq<Token>)
    ensures Placeholders(a + b) == Placeholders(a) + Placeholders(b)
  {
    if a == [] {
      assert a + b == b;
    } else {
      assert (a + b)[0] == a[0] && (a + b)[1..] == a[1..] + b;
      PlaceholdersConcat(a[1..], b);
      Append2(if IsPlaceholder(a[0]) then [a[0]] else [], Placeholders(a[1..]), Placeholders(b));
    }
  }

  lemma {:induction false} NoPlaceholders(ts: seq<Token>)
    requires forall i :: 0 <= i < |ts| ==> !IsPlaceholder(ts[i])
    ensures Placeholders(ts) == []
  {
    if ts != [] {
      NoPlaceholders(ts[1..]);
    }
  }

  lemma NamePlaceholders(field: string)
    requires IsQualified(field)
    ensures Placeholders(NameTokens(field)) == []
  {
    NoPlaceholders(NameTokens(field));
  }

  lemma OnePlaceholder(d: Dialect, n: nat)
    ensures Placeholders([ParamToken(d, n + 1)]) == Consecutive(d, n, 1)
  {
    assert [ParamToken(d, n + 1)][1..] == [];
    assert Placeholders([ParamToken(d, n + 1)]) == [ParamToken(d, n + 1)];
  }

  lemma {:induction false} ListPlaceholders(d: Dialect, count: nat, n: nat)
    ensures Placeholders(ListTokens(d, count, n)) == Consecutive(d, n, count)
  {
    if count == 1 {
      OnePlaceholder(d, n);
    } else if count > 1 {
      var list, last := ListTokens(d, count - 1, n), [ParamToken(d, n + count)];
      ListPlaceholders(d, count - 1, n);
      NoPlaceholders([Symbol(",")]);
      OnePlaceholder(d, n + count - 1);
      PlaceholdersConcat(list, [Symbol(",")]);
      PlaceholdersConcat(list + [Symbol(",")], last);
    }
  }

  lemma Parts3(a: seq<Token>, b: seq<Token>, c: seq<Token>)
    ensures Placeholders(a + b + c) == Placeholders(a) + Placeholders(b) + Placeholders(c)
  {
    PlaceholdersConcat(a, b);
    PlaceholdersConcat(a + b, c);
  }

  lemma Parts4(a: seq<Token>, b: seq<Token>, c: seq<Token>, e: seq<Token>)
    ensures Placeholders(a + b + c + e) == Placeholders(a) + Placeholders(b) + Placeholders(c) + Placeholders(e)
  {
    Parts3(a, b, c);
    PlaceholdersConcat(a + b + c, e);
  }

  lemma Enclosed(opening: seq<Token>, inner: seq<Token>)
    requires Placeholders(opening) == []
    ensures Placeholders(opening + inner + [Symbol(")")]) == Placeholders(inner)
  {
    NoPlaceholders([Symbol(")")]);
    Parts3(opening, inner, [Symbol(")")]);
  }

  ghost predicate Numbered<V>(d: Dialect, t: CondNode<V>, n: nat)
    requires Accepted(t)
  {
    Placeholders(Tokens(d, t, n)) == Consecutive(d, n, |Params(t)|)
  }

  lemma NameTokenValue(d: Dialect, field: string, middle: Token, n: nat)
    requires IsQualified(field) && !IsPlaceholder(middle)
    ensures Placeholders(NameTokens(field) + [middle] + [ParamToken(d, n + 1)]) == Consecutive(d, n, 1)
  {
    NamePlaceholders(field);
    NoPlaceholders([middle]);
    OnePlaceholder(d, n);
    Parts3(NameTokens(field), [middle], [ParamToken(d, n + 1)]);
  }

  lemma NameTokenName(left: string, middle: Token, right: string)
    requires IsQualified(left) && IsQualified(right) && !IsPlaceholder(middle)
    ensures Placeholders(NameTokens(left) + [middle] + NameTokens(right)) == []
  {
    NamePlaceholders(left);
    NamePlaceholders(right);
    NoPlaceholders([middle]);
    Parts3(NameTokens(left), [middle], NameTokens(right));
  }

  lemma NameAlone(field: string, negated: bool)
    requires IsQualified(field)
    ensures Placeholders(NameTokens(field) + IsTokens(negated)) == []
  {
    NamePlaceholders(field);
    NoPlaceholders(IsTokens(negated));
    PlaceholdersConcat(NameTokens(field), IsTokens(negated));
  }

  lemma LeafNumbered<V>(d: Dialect, t: CondNode<V>, n: nat)
    requires Accepted(t) && Converted(d, t)
    requires t.Compare? || t.Like? || t.IsNull? || t.ColumnComparison?
    ensures Numbered(d, t, n)
  {
    match t
    case Compare(op, field, _) => NameTokenValue(d, field, Symbol(OpText(op)), n);
    case Like(field, _) => NameTokenValue(d, field, Word("LIKE"), n);
    case IsNull(negated, field) => NameAlone(field, negated);
    case ColumnComparison(left, op, right) => NameTokenName(left, Symbol(OpText(op)), right);
  }

  lemma BetweenNumbered<V>(d: Dialect, field: string, low: V, high: V, n: nat)
    requires IsQualified(field)
    ensures Numbered(d, Between(field, low, high), n)
  {
    var p1, p2 := [ParamToken(d, n + 1)], [ParamToken(d, n + 2)];
    NamePlaceholders(field);
    NoPlaceholders([Word("BETWEEN")]);
    NoPlaceholders([Word("AND")]);
    OnePlaceholder(d, n);
    OnePlaceholder(d, n + 1);
    Parts4(NameTokens(field), [Word("BETWEEN")], p1, [Word("AND")]);
    PlaceholdersConcat(NameTokens(field) + [Word("BETWEEN")] + p1 + [Word("AND")], p2);
  }

  lemma ExprNumbered<V>(d: Dialect, field: string, op: CompareOp, fragment: string, param: Option<V>, n: nat)
    requires IsQualified(field) && Converted(d, ColumnExpr(field, op, fragment, param))
    ensures Numbered(d, ColumnExpr(field, op, fragment, param), n)
  {
    NamePlaceholders(field);
    NoPlaceholders([Symbol(OpText(op))]);
    NoPlaceholders(ExprTokens(false));
    if param.Some? {
      var more := [Symbol("+")] + [ParamToken(d, n + 1)];
      assert ExprTokens(true) == ExprTokens(false) + [Symbol("+")] + [ParamToken(d, n + 1)];
      NoPlaceholders([Symbol("+")]);
      OnePlaceholder(d, n);
      Parts3(ExprTokens(false), [Symbol("+")], [ParamToken(d, n + 1)]);
    }
    Parts3(NameTokens(field), [Symbol(OpText(op))], ExprTokens(param.Some?));
  }

  lemma InNumbered<V>(d: Dialect, negated: bool, field: string, values: seq<V>, n: nat)
    requires IsQualified(field) && values != []
    ensures Numbered(d, InList(negated, field, values), n)
  {
    NamePlaceholders(field);
    NoPlaceholders(InTokens(negated));
    ListPlaceholders(d, |values|, n);
    NoPlaceholders([Symbol(")")]);
    Parts4(NameTokens(field), InTokens(negated), ListTokens(d, |values|, n), [Symbol(")")]);
  }

  /** Through any nesting, the placeholders are the next ones in order, one for each parameter. */
  lemma {:induction false} TokensNumbered<V>(d: Dialect, t: CondNode<V>, n: nat)
    requires Accepted(t) && Converted(d, t)
    ensures Numbered(d, t, n)
    decreases t, 1
  {
    match t
    case Between(field, low, high) => BetweenNumbered(d, field, low, high, n);
    case InList(negated, field, values) => InNumbered(d, negated, field, values, n);
    case ColumnExpr(field, op, fragment, param) => ExprNumbered(d, field, op, fragment, param, n);
    case Exists(negated, q) =>
      SubqueryNumbered(d, q, n);
      NoPlaceholders(ExistsTokens(negated));
      Enclosed(ExistsTokens(negated), SubqueryTokens(d, q, n));
    case InSubquery(field, q) =>
      SubqueryNumbered(d, q, n);
      NamePlaceholders(field);
      NoPlaceholders(InTokens(false));
      PlaceholdersConcat(NameTokens(field), InTokens(false));
      Enclosed(NameTokens(field) + InTokens(false), SubqueryTokens(d, q, n));
    case Group(c, cs) =>
      if |cs| == 1 {
        SingleMember(cs);
        TokensNumbered(d, cs[0], n);
      } else {
        AllNumbered(d, cs, c, n);
        NoPlaceholders([Symbol("(")]);
        Enclosed([Symbol("(")], TokensAll(d, cs, c, n));
      }
    case _ => LeafNumbered(d, t, n);
  }

  lemma {:induction false} AllNumbered<V>(d: Dialect, cs: seq<CondNode<V>>, c: Connective, n: nat)
    requires AcceptedAll(cs) && ConvertedAll(d, cs)
    ensures Placeholders(TokensAll(d, cs, c, n)) == Consecutive(d, n, |ParamsAll(cs)|)
    decreases cs, 0
  {
    if |cs| == 1 {
      SingleMember(cs);
      TokensNumbered(d, cs[0], n);
    } else if |cs| > 1 {
      var m := |Params(cs[0])|;
      TokensNumbered(d, cs[0], n);
      AllNumbered(d, cs[1..], c, n + m);
      assert |ParamsAll(cs)| == m + |ParamsAll(cs[1..])|;
      TwoParts(d, Tokens(d, cs[0], n), c, TokensAll(d, cs[1..], c, n + m), n, m, |ParamsAll(cs[1..])|);
    }
  }

  lemma TwoParts(d: Dialect, first: seq<Token>, c: Connective, others: seq<Token>, n: nat, m: nat, count: nat)
    requires Placeholders(first) == Consecutive(d, n, m) && Placeholders(others) == Consecutive(d, n + m, count)
    ensures Placeholders(first + [ConnectiveToken(c)] + others) == Consecutive(d, n, m + count)
  {
    NoPlaceholders([ConnectiveToken(c)]);
    Parts3(first, [ConnectiveToken(c)], others);
  }

  lemma SelectPlaceholders(field: string, table: string)
    requires IsQualified(field)
    ensures Placeholders(SelectTokens(field, table)) == []
  {
    NamePlaceholders(field);
    NoPlaceholders([Word("SELECT")]);
    NoPlaceholders([Word("FROM")]);
    NoPlaceholders([Quoted(table)]);
    Parts4([Word("SELECT")], NameTokens(field), [Word("FROM")], [Quoted(table)]);
  }

  lemma {:induction false} SubqueryNumbered<V>(d: Dialect, q: SubqueryNode<V>, n: nat)
    requires AcceptedSubquery(q) && ConvertedAll(d, q.conditions)
    ensures Placeholders(SubqueryTokens(d, q, n)) == Consecutive(d, n, |ParamsAll(q.conditions)|)
    decreases q, 1
  {
    SelectPlaceholders(q.field, q.table);
    if q.conditions == [] {
      assert SubqueryTokens(d, q, n) == SelectTokens(q.field, q.table);
    } else {
      var list := TokensAll(d, q.conditions, And, n);
      AllNumbered(d, q.conditions, And, n);
      NoPlaceholders([Word("WHERE")]);
      PlaceholdersConcat([Word("WHERE")], list);
      PlaceholdersConcat(SelectTokens(q.field, q.table), [Word("WHERE")] + list);
    }
  }

  /**
   The k-th placeholder of the rendered text is `$`(offset + k) in PostgreSQL and `?` in MySQL, and
   there are as many placeholders as parameters.
   */
  lemma TextNumbered<V>(d: Dialect, t: CondNode<V>, offset: nat)
    requires IsDialect(d) && Accepted(t) && Converted(d, t)
    ensures Placeholders(Lex(d.quote, Sql(d, t, offset))) == Consecutive(d, offset, |Params(t)|)
  {
    LexCondition(d, t, offset, "");
    assert Sql(d, t, offset) + "" == Sql(d, t, offset);
    assert Tokens(d, t, offset) + [] == Tokens(d, t, offset);
    TokensNumbered(d, t, offset);
  }

  /** Conditions rendered one after the other are numbered together, without gaps or repetitions. */
  lemma SuccessiveNumbered<V>(d: Dialect, cs: seq<CondNode<V>>, c: Connective, offset: nat)
    requires IsDialect(d) && cs != [] && AcceptedAll(cs) && ConvertedAll(d, cs)
    ensures Placeholders(Lex(d.quote, SqlAll(d, cs, c, offset))) == Consecutive(d, offset, |ParamsAll(cs)|)
  {
    LexAll(d, cs, c, offset, "");
    assert SqlAll(d, cs, c, offset) + "" == SqlAll(d, cs, c, offset);
    assert TokensAll(d, cs, c, offset) + [] == TokensAll(d, cs, c, offset);
    AllNumbered(d, cs, c, offset);
  }

  // ---------- the statement under construction ----------

  /** Where placeholders carry no number, the offset makes no difference. */
  lemma {:induction false} OffsetIgnored<V>(d: Dialect, t: CondNode<V>, n: nat, m: nat)
    requires !d.numbered && Accepted(t)
    ensures Sql(d, t, n) == Sql(d, t, m)
    decreases t, 1
  {
    match t
    case InList(_, _, values) => ListOffsetIgnored(d, |values|, n, m);
    case Exists(_, q) => AllOffsetIgnored(d, q.conditions, And, n, m);
    case InSubquery(_, q) => AllOffsetIgnored(d, q.conditions, And, n, m);
    case Group(c, cs) =>
      if |cs| == 1 {
        OffsetIgnored(d, cs[0], n, m);
      } else {
        AllOffsetIgnored(d, cs, c, n, m);
      }
    case _ =>
  }

  lemma {:induction false} ListOffsetIgnored(d: Dialect, count: nat, n: nat, m: nat)
    requires !d.numbered
    ensures PlaceholderList(d, count, n) == PlaceholderList(d, count, m)
  {
    if count > 1 {
      ListOffsetIgnored(d, count - 1, n, m);
    }
  }

  lemma {:induction false} AllOffsetIgnored<V>(d: Dialect, cs: seq<CondNode<V>>, c: Connective, n: nat, m: nat)
    requires !d.numbered && AcceptedAll(cs)
    ensures SqlAll(d, cs, c, n) == SqlAll(d, cs, c, m)
    decreases cs, 0
  {
    if cs != [] {
      OffsetIgnored(d, cs[0], n, m);
      AllOffsetIgnored(d, cs[1..], c, After(n, cs[0]), After(m, cs[0]));
    }
  }

  class Statement<V> {
    const dialect: Dialect
    var sql: string
    var params: seq<V>

    constructor (dialect: Dialect)
      ensures this.dialect == dialect && sql == "" && params == []
    {
      this.dialect, sql, params := dialect, "", [];
    }

    /** Adds one condition; on an error neither the text nor the parameters change. */
    method AppendCondition(t: CondNode<V>) returns (ok: bool)
      modifies this
      ensures ok == Accepted(t)
      ensures ok ==> sql == old(sql) + Sql(dialect, t, old(|params|)) && params == old(params) + Params(t)
      ensures !ok ==> sql == old(sql) && params == old(params)
    {
      var rendered := RenderCondition(dialect, t, if dialect.numbered then |params| else 0);
      if rendered == None {
        return false;
      }
      if !dialect.numbered {
        OffsetIgnored(dialect, t, 0, |params|);
      }
      sql := sql + rendered.value.sql;
      params := params + rendered.value.params;
      return true;
    }

    /** Writes the clause condition by condition; the result is the clause of one AND group. */
    method BuildWhere(cs: seq<CondNode<V>>) returns (ok: bool)
      modifies this
      ensures ok == AcceptedAll(cs)
      ensures ok ==> params == old(params) + ParamsAll(cs)
      ensures ok && cs == [] ==> sql == old(sql)
      ensures ok && cs != [] ==> sql == old(sql) + (" WHERE " + Sql(dialect, Group(And, cs), old(|params|)))
    {
      if cs == [] {
        return true;
      }
      sql := sql + " WHERE ";
      if |cs| == 1 {
        SingleMember(cs);
        ok := AppendCondition(cs[0]);
        if ok {
          Append2(old(sql), " WHERE ", Sql(dialect, cs[0], old(|params|)));
        }
        return;
      }
      sql := sql + "(";
      ok := AppendAll(cs);
      if ok {
        sql := sql + ")";
        var inner := SqlAll(dialect, cs, And, old(|params|));
        Append4(old(sql), " WHERE ", "(", inner, ")");
        Append3(" WHERE ", "(", inner, ")");
      }
    }

    /** The text and the parameters of the conditions written so far, after what was there. */
    ghost predicate Written(start: string, before: seq<V>, n: nat, done: seq<CondNode<V>>)
      reads this
    {
      && AcceptedAll(done) && n == |before|
      && sql == start + SqlAll(dialect, done, And, n) && params == before + ParamsAll(done)
    }

    method AppendAll(cs: seq<CondNode<V>>) returns (ok: bool)
      modifies this
      ensures ok == AcceptedAll(cs)
      ensures ok ==> sql == old(sql) + SqlAll(dialect, cs, And, old(|params|))
      ensures ok ==> params == old(params) + ParamsAll(cs)
    {
      ghost var start, before, n := sql, params, |params|;
      for index := 0 to |cs|
        invariant Written(start, before, n, cs[..index])
      {
        TakeNext(cs, index);
        ok := AppendNext(cs[index], index == 0, start, before, n, cs[..index]);
        if !ok {
          AcceptedAt(cs, index);
          return;
        }
      }
      TakeAll(cs);
      return true;
    }

    method AppendNext(t: CondNode<V>, first: bool,
                      ghost start: string, ghost before: seq<V>, ghost n: nat, ghost done: seq<CondNode<V>>)
      returns (ok: bool)
      requires Written(start, before, n, done) && first == (done == [])
      modifies this
      ensures ok == Accepted(t)
      ensures ok ==> Written(start, before, n, done + [t])
    {
      ghost var k := |params|;
      ListExtended(done, t);
      if !first {
        sql := sql + " AND ";
      }
      ok := AppendCondition(t);
      if ok {
        NextText(dialect, start, done, t, And, n, k);
        Append2(before, ParamsAll(done), Params(t));
      }
    }
  }
}
