/** The parser rebuilds the rendered condition, with groups of one member removed. */
module SqlParsing {
  import opened Wrappers
  import opened Sequences
  import opened Identifiers
  import opened Conditions
  import opened SqlReader
  import opened SqlLexing

  // ---------- what the reader can recover ----------

  /** The condition with every group of one member replaced by that member. */
  function Normalize<V>(t: CondNode<V>): CondNode<V>
    decreases t, 1
  {
    match t
    case Exists(negated, q) => Exists(negated, NormalizeSubquery(q))
    case InSubquery(field, q) => InSubquery(field, NormalizeSubquery(q))
    case Group(c, cs) => if |cs| == 1 then Normalize(cs[0]) else Group(c, NormalizeAll(cs))
    case _ => t
  }

  function NormalizeAll<V>(cs: seq<CondNode<V>>): (r: seq<CondNode<V>>)
    ensures |r| == |cs|
    decreases cs, 0
  {
    if cs == [] then [] else [Normalize(cs[0])] + NormalizeAll(cs[1..])
  }

  function NormalizeSubquery<V>(q: SubqueryNode<V>): SubqueryNode<V>
    decreases q, 1
  {
    SubqueryNode(q.table, q.field, NormalizeAll(q.conditions))
  }

  /** The values ps are the parameters from position k on. */
  ghost predicate Bound<V>(b: Binding<V>, k: nat, ps: seq<V>) {
    k + |ps| <= |b.params| && b.params[k..k + |ps|] == ps
  }

  lemma BoundSplit<V>(b: Binding<V>, k: nat, ps: seq<V>, qs: seq<V>)
    requires Bound(b, k, ps + qs)
    ensures Bound(b, k, ps) && Bound(b, k + |ps|, qs)
  {
    var all := b.params[k..k + |ps + qs|];
    assert b.params[k..k + |ps|] == all[..|ps|] == ps;
    assert b.params[k + |ps|..k + |ps| + |qs|] == all[|ps|..] == qs;
  }

  /** What can stand after a condition. */
  predicate Follow(rest: seq<Token>) {
    rest == [] || rest[0] == Word("AND") || rest[0] == Word("OR") || rest[0] == Symbol(")")
  }

  /** The parameters of the statement when k of these have been read. */
  function At<V>(b: Binding<V>, k: nat): nat {
    b.offset + k
  }

  /** How many placeholders have been read once a list of conditions has been. */
  function AfterAll<V>(k: nat, cs: seq<CondNode<V>>): nat {
    k + |ParamsAll(cs)|
  }

  ghost predicate Fits<V>(d: Dialect, b: Binding<V>) {
    IsDialect(d) && b.numbered == d.numbered
  }

  // ---------- names and placeholders ----------

  lemma ParamReads<V>(d: Dialect, b: Binding<V>, k: nat, value: V, rest: seq<Token>)
    requires Fits(d, b) && Bound(b, k, [value])
    ensures ReadParam(b, Cursor([ParamToken(d, At(b, k) + 1)] + rest, k)) == Ok(value, Cursor(rest, k + 1))
  {
    var ts := [ParamToken(d, At(b, k) + 1)] + rest;
    assert ts[1..] == rest;
    assert b.params[k] == b.params[k..k + 1][0] == value;
  }

  /** A column and what follows it, when that is not an IN subquery. */
  lemma ColumnReads<V>(b: Binding<V>, field: string, tail: seq<Token>, k: nat)
    requires IsQualified(field) && tail != [] && tail[0] != Symbol(".")
    requires !([Word("IN"), Symbol("("), Word("SELECT")] <= tail)
    ensures ReadFactor(b, Cursor(NameTokens(field) + tail, k)) == ReadTail(b, field, Cursor(tail, k))
  {
    assert (NameTokens(field) + tail)[0].Quoted?;
  }

  // ---------- conditions on one column ----------

  ghost predicate ReadsBack<V>(d: Dialect, b: Binding<V>, t: CondNode<V>, k: nat, rest: seq<Token>)
    requires Accepted(t)
  {
    ReadFactor(b, Cursor(Tokens(d, t, At(b, k)) + rest, k))
      == Ok(Normalize(t), Cursor(rest, After(k, t)))
  }

  /** Reading what follows a column is enough. */
  lemma LiftTail<V>(d: Dialect, b: Binding<V>, t: CondNode<V>, field: string, tail: seq<Token>, k: nat,
                    rest: seq<Token>)
    requires Accepted(t) && IsQualified(field)
    requires Tokens(d, t, At(b, k)) + rest == NameTokens(field) + tail
    requires tail != [] && tail[0] != Symbol(".") && !([Word("IN"), Symbol("("), Word("SELECT")] <= tail)
    requires ReadTail(b, field, Cursor(tail, k)) == Ok(Normalize(t), Cursor(rest, After(k, t)))
    ensures ReadsBack(d, b, t, k, rest)
  {
    ColumnReads(b, field, tail, k);
  }

  lemma OpReads<V>(b: Binding<V>, field: string, op: CompareOp, after: seq<Token>, k: nat)
    ensures ReadTail(b, field, Cursor([Symbol(OpText(op))] + after, k))
         == ReadComparison(b, field, op, Cursor(after, k))
  {
    var tail := [Symbol(OpText(op))] + after;
    assert tail[0] == Symbol(OpText(op)) && tail[1..] == after;
  }

  lemma CompareReads<V>(d: Dialect, b: Binding<V>, op: CompareOp, field: string, value: V, k: nat, rest: seq<Token>)
    requires Fits(d, b) && IsQualified(field) && Bound(b, k, [value])
    ensures ReadsBack(d, b, Compare(op, field, value), k, rest)
  {
    var o, p := [Symbol(OpText(op))], [ParamToken(d, At(b, k) + 1)];
    OpReads(b, field, op, p + rest, k);
    ParamReads(d, b, k, value, rest);
    assert (p + rest)[0] == p[0];
    Nest3(NameTokens(field), o, p, rest);
    LiftTail(d, b, Compare(op, field, value), field, o + (p + rest), k, rest);
  }

  lemma LikeTail<V>(d: Dialect, b: Binding<V>, field: string, value: V, k: nat, rest: seq<Token>)
    requires Fits(d, b) && Bound(b, k, [value])
    ensures ReadTail(b, field, Cursor([Word("LIKE")] + ([ParamToken(d, At(b, k) + 1)] + rest), k))
         == Ok(Like(field, value), Cursor(rest, k + 1))
  {
    var after := [ParamToken(d, At(b, k) + 1)] + rest;
    var tail := [Word("LIKE")] + after;
    assert tail[0] == Word("LIKE") && tail[1..] == after;
    ParamReads(d, b, k, value, rest);
  }

  lemma LikeReads<V>(d: Dialect, b: Binding<V>, field: string, value: V, k: nat, rest: seq<Token>)
    requires Fits(d, b) && IsQualified(field) && Bound(b, k, [value])
    ensures ReadsBack(d, b, Like(field, value), k, rest)
  {
    var p := [ParamToken(d, At(b, k) + 1)];
    LikeTail(d, b, field, value, k, rest);
    Nest3(NameTokens(field), [Word("LIKE")], p, rest);
    LiftTail(d, b, Like(field, value), field, [Word("LIKE")] + (p + rest), k, rest);
  }

  lemma BetweenTail<V>(d: Dialect, b: Binding<V>, field: string, low: V, high: V, k: nat, rest: seq<Token>)
    requires Fits(d, b) && Bound(b, k, [low]) && Bound(b, k + 1, [high])
    ensures ReadBetween(b, field, Cursor([ParamToken(d, At(b, k) + 1)]
              + ([Word("AND")] + ([ParamToken(d, At(b, k) + 2)] + rest)), k))
         == Ok(Between(field, low, high), Cursor(rest, k + 2))
  {
    var p2 := [ParamToken(d, At(b, k) + 2)];
    var second := [Word("AND")] + (p2 + rest);
    assert At(b, k) + 2 == At(b, k + 1) + 1;
    ParamReads(d, b, k, low, second);
    assert second[0] == Word("AND") && second[1..] == p2 + rest;
    ParamReads(d, b, k + 1, high, rest);
  }

  lemma BetweenKeyword<V>(b: Binding<V>, field: string, inner: seq<Token>, k: nat)
    ensures ReadTail(b, field, Cursor([Word("BETWEEN")] + inner, k)) == ReadBetween(b, field, Cursor(inner, k))
  {
    var tail := [Word("BETWEEN")] + inner;
    assert tail[0] == Word("BETWEEN") && tail[1..] == inner;
  }

  lemma BetweenReads<V>(d: Dialect, b: Binding<V>, field: string, low: V, high: V, k: nat, rest: seq<Token>)
    requires Fits(d, b) && IsQualified(field) && Bound(b, k, [low, high])
    ensures ReadsBack(d, b, Between(field, low, high), k, rest)
  {
    var p1, p2 := [ParamToken(d, At(b, k) + 1)], [ParamToken(d, At(b, k) + 2)];
    var between := [Word("BETWEEN")];
    var inner := p1 + ([Word("AND")] + (p2 + rest));
    assert [low, high] == [low] + [high];
    BoundSplit(b, k, [low], [high]);
    BetweenTail(d, b, field, low, high, k, rest);
    BetweenKeyword(b, field, inner, k);
    var tail := between + inner;
    Nest3(NameTokens(field), between, p1, [Word("AND")] + (p2 + rest));
    Nest3(NameTokens(field) + between + p1, [Word("AND")], p2, rest);
    LiftTail(d, b, Between(field, low, high), field, tail, k, rest);
  }

  /** A value list, read from the front though it is written by extending the end. */
  lemma {:induction false} ListTokensFront(d: Dialect, count: nat, n: nat)
    requires count > 1
    ensures ListTokens(d, count, n) == [ParamToken(d, n + 1)] + [Symbol(",")] + ListTokens(d, count - 1, n + 1)
  {
    if count > 2 {
      ListTokensFront(d, count - 1, n);
      Append3([ParamToken(d, n + 1)] + [Symbol(",")], ListTokens(d, count - 2, n + 1),
        [Symbol(",")], [ParamToken(d, n + count)]);
    }
  }

  lemma ListStep<V>(d: Dialect, b: Binding<V>, value: V, others: seq<V>, inner: seq<Token>, k: nat, next: Cursor)
    requires Fits(d, b) && Bound(b, k, [value])
    requires ReadParams(b, Cursor(inner, k + 1)) == Ok(others, next)
    ensures ReadParams(b, Cursor([ParamToken(d, At(b, k) + 1)] + ([Symbol(",")] + inner), k))
         == Ok([value] + others, next)
  {
    var after := [Symbol(",")] + inner;
    ParamReads(d, b, k, value, after);
    assert after[0] == Symbol(",") && after[1..] == inner;
  }

  lemma ListEnd<V>(d: Dialect, b: Binding<V>, value: V, k: nat, rest: seq<Token>)
    requires Fits(d, b) && Bound(b, k, [value])
    ensures ReadParams(b, Cursor([ParamToken(d, At(b, k) + 1)] + ([Symbol(")")] + rest), k))
         == Ok([value], Cursor(rest, k + 1))
  {
    var close := [Symbol(")")] + rest;
    ParamReads(d, b, k, value, close);
    assert close[0] == Symbol(")") && close[1..] == rest;
  }

  lemma {:induction false} ListReads<V>(d: Dialect, b: Binding<V>, values: seq<V>, k: nat, rest: seq<Token>)
    requires Fits(d, b) && values != [] && Bound(b, k, values)
    ensures ReadParams(b, Cursor(ListTokens(d, |values|, At(b, k)) + ([Symbol(")")] + rest), k))
         == Ok(values, Cursor(rest, k + |values|))
  {
    var p, close := [ParamToken(d, At(b, k) + 1)], [Symbol(")")] + rest;
    var value, others := values[0], values[1..];
    assert values == [value] + others;
    BoundSplit(b, k, [value], others);
    if others == [] {
      assert values == [value];
      ListEnd(d, b, value, k, rest);
    } else {
      var list := ListTokens(d, |others|, At(b, k + 1));
      assert ListTokens(d, |values|, At(b, k)) + close == p + ([Symbol(",")] + (list + close)) by {
        ListTokensFront(d, |values|, At(b, k));
        Nest3(p, [Symbol(",")], list, close);
      }
      ListReads(d, b, others, k + 1, rest);
      ListStep(d, b, value, others, list + close, k, Cursor(rest, k + |values|));
    }
  }

  lemma ListStart(d: Dialect, count: nat, n: nat)
    requires count > 0
    ensures ListTokens(d, count, n) != [] && ListTokens(d, count, n)[0] == ParamToken(d, n + 1)
  {
    if count > 1 {
      ListTokensFront(d, count, n);
    }
  }

  lemma InTail<V>(b: Binding<V>, negated: bool, field: string, inner: seq<Token>, k: nat)
    ensures ReadTail(b, field, Cursor(InTokens(negated) + inner, k)) == ReadIn(b, negated, field, Cursor(inner, k))
  {
    var opening := InTokens(negated);
    var tail := opening + inner;
    assert tail[0] == opening[0] && tail[1] == opening[1];
    assert tail[|opening|..] == inner;
    assert opening <= tail;
  }

  lemma InReads<V>(d: Dialect, b: Binding<V>, negated: bool, field: string, values: seq<V>, k: nat, rest: seq<Token>)
    requires Fits(d, b) && IsQualified(field) && values != [] && Bound(b, k, values)
    ensures ReadsBack(d, b, InList(negated, field, values), k, rest)
  {
    var opening, list, close := InTokens(negated), ListTokens(d, |values|, At(b, k)), [Symbol(")")];
    var inner := list + (close + rest);
    var tail := opening + inner;
    InTail(b, negated, field, inner, k);
    ListReads(d, b, values, k, rest);
    ListStart(d, |values|, At(b, k));
    assert inner[0] == list[0] && tail[0] == opening[0] && tail[|opening|] == inner[0];
    Nest4(NameTokens(field), opening, list, close, rest);
    LiftTail(d, b, InList(negated, field, values), field, tail, k, rest);
  }

  lemma IsNullTail<V>(b: Binding<V>, negated: bool, field: string, k: nat, rest: seq<Token>)
    ensures ReadTail(b, field, Cursor(IsTokens(negated) + rest, k)) == Ok(IsNull(negated, field), Cursor(rest, k))
  {
    var words := IsTokens(negated);
    var tail := words + rest;
    assert tail[0] == words[0] && tail[1] == words[1] && words <= tail;
    assert tail[|words|..] == rest;
  }

  lemma IsNullReads<V>(d: Dialect, b: Binding<V>, negated: bool, field: string, k: nat, rest: seq<Token>)
    requires Fits(d, b) && IsQualified(field)
    ensures ReadsBack(d, b, IsNull(negated, field), k, rest)
  {
    var words := IsTokens(negated);
    var tail := words + rest;
    assert tail[0] == words[0];
    IsNullTail(b, negated, field, k, rest);
    Append2(NameTokens(field), words, rest);
    LiftTail(d, b, IsNull(negated, field), field, tail, k, rest);
  }

  lemma ColumnsComparison<V>(b: Binding<V>, left: string, op: CompareOp, right: string, k: nat, rest: seq<Token>)
    requires IsQualified(right) && Follow(rest)
    ensures ReadComparison(b, left, op, Cursor(NameTokens(right) + rest, k))
         == Ok(ColumnComparison(left, op, right), Cursor(rest, k))
  {
    assert (NameTokens(right) + rest)[0].Quoted?;
  }

  lemma ColumnsRead<V>(d: Dialect, b: Binding<V>, left: string, op: CompareOp, right: string, k: nat, rest: seq<Token>)
    requires Fits(d, b) && IsQualified(left) && IsQualified(right) && Follow(rest)
    ensures ReadsBack(d, b, ColumnComparison(left, op, right), k, rest)
  {
    var o, name := [Symbol(OpText(op))], NameTokens(right);
    OpReads(b, left, op, name + rest, k);
    ColumnsComparison(b, left, op, right, k, rest);
    Nest3(NameTokens(left), o, name, rest);
    LiftTail(d, b, ColumnComparison(left, op, right), left, o + (name + rest), k, rest);
  }

  lemma ExprComparison<V>(d: Dialect, b: Binding<V>, field: string, op: CompareOp, param: Option<V>, k: nat,
                          rest: seq<Token>)
    requires Fits(d, b) && !d.numbered && Follow(rest)
    requires Bound(b, k, if param.Some? then [param.value] else [])
    ensures ReadComparison(b, field, op, Cursor(ExprTokens(param.Some?) + rest, k))
         == Ok(ColumnExpr(field, op, if param.Some? then "UNIX_TIMESTAMP() + ?" else "UNIX_TIMESTAMP()", param),
               Cursor(rest, k + if param.Some? then 1 else 0))
  {
    var call, tokens := ExprTokens(false), ExprTokens(param.Some?) + rest;
    var end := if param.Some? then [Symbol("+")] + ([Symbol("?")] + rest) else rest;
    assert tokens == call + end && call <= tokens && tokens[3..] == end;
    if param.Some? {
      ParamReads(d, b, k, param.value, rest);
      assert end[0] == Symbol("+") && end[1..] == [Symbol("?")] + rest;
    }
  }

  lemma ExprReads<V>(d: Dialect, b: Binding<V>, field: string, op: CompareOp, fragment: string, param: Option<V>,
                     k: nat, rest: seq<Token>)
    requires Fits(d, b) && IsQualified(field) && Converted(d, ColumnExpr(field, op, fragment, param)) && Follow(rest)
    requires Bound(b, k, if param.Some? then [param.value] else [])
    ensures ReadsBack(d, b, ColumnExpr(field, op, fragment, param), k, rest)
  {
    var o, call := [Symbol(OpText(op))], ExprTokens(param.Some?);
    OpReads(b, field, op, call + rest, k);
    ExprComparison(d, b, field, op, param, k, rest);
    Nest3(NameTokens(field), o, call, rest);
    LiftTail(d, b, ColumnExpr(field, op, fragment, param), field, o + (call + rest), k, rest);
  }

  // ---------- groups and subqueries ----------

  lemma ParenthesisReads<V>(b: Binding<V>, inner: seq<Token>, ds: seq<seq<CondNode<V>>>, k: nat, m: nat,
                            rest: seq<Token>)
    requires ReadExpression(b, Cursor(inner + ([Symbol(")")] + rest), k)) == Ok(ds, Cursor([Symbol(")")] + rest, m))
    ensures ds != [] && forall i :: 0 <= i < |ds| ==> ds[i] != []
    ensures ReadFactor(b, Cursor(([Symbol("(")] + inner + [Symbol(")")]) + rest, k))
         == Ok(Disjunction(ds), Cursor(rest, m))
  {
    var close := [Symbol(")")] + rest;
    var tokens := [Symbol("(")] + (inner + close);
    Nest3([Symbol("(")], inner, [Symbol(")")], rest);
    assert tokens[0] == Symbol("(") && tokens[1..] == inner + close;
    assert close[0] == Symbol(")") && close[1..] == rest;
  }

  lemma ExistsReads<V>(b: Binding<V>, negated: bool, inner: seq<Token>, k: nat, q: SubqueryNode<V>, next: Cursor)
    requires ReadSubquery(b, Cursor(inner, k)) == Ok(q, next)
    ensures ReadFactor(b, Cursor(ExistsTokens(negated) + inner, k)) == Ok(Exists(negated, q), next)
  {
    var opening := ExistsTokens(negated);
    var tokens := opening + inner;
    assert tokens[0] == opening[0] && tokens[1] == opening[1];
    assert opening <= tokens && tokens[|opening|..] == inner;
  }

  lemma InSubqueryReads<V>(b: Binding<V>, field: string, inner: seq<Token>, k: nat, q: SubqueryNode<V>, next: Cursor)
    requires IsQualified(field) && ReadSubquery(b, Cursor(inner, k)) == Ok(q, next)
    ensures ReadFactor(b, Cursor(NameTokens(field) + (InTokens(false) + inner), k)) == Ok(InSubquery(field, q), next)
  {
    var tail := InTokens(false) + inner;
    assert tail[0] == Word("IN") && tail[1] == Symbol("(") && tail[2] == inner[0] && tail[2..] == inner;
    assert (NameTokens(field) + tail)[0].Quoted?;
  }

  /** Every condition reads back, whatever stands after it. */
  lemma {:induction false} FactorReads<V>(d: Dialect, b: Binding<V>, t: CondNode<V>, k: nat, rest: seq<Token>)
    requires Fits(d, b) && Accepted(t) && Converted(d, t) && Bound(b, k, Params(t)) && Follow(rest)
    ensures ReadsBack(d, b, t, k, rest)
    decreases t, 1
  {
    match t
    case Compare(op, field, value) => CompareReads(d, b, op, field, value, k, rest);
    case InList(negated, field, values) => InReads(d, b, negated, field, values, k, rest);
    case Between(field, low, high) => BetweenReads(d, b, field, low, high, k, rest);
    case Like(field, pattern) => LikeReads(d, b, field, pattern, k, rest);
    case IsNull(negated, field) => IsNullReads(d, b, negated, field, k, rest);
    case ColumnComparison(left, op, right) => ColumnsRead(d, b, left, op, right, k, rest);
    case ColumnExpr(field, op, fragment, param) => ExprReads(d, b, field, op, fragment, param, k, rest);
    case Exists(negated, q) =>
      SubqueryReads(d, b, q, k, rest);
      ExistsConditionReads(d, b, negated, q, k, rest);
    case InSubquery(field, q) =>
      SubqueryReads(d, b, q, k, rest);
      InConditionReads(d, b, field, q, k, rest);
    case Group(c, cs) =>
      if |cs| == 1 {
        SingleMember(cs);
        FactorReads(d, b, cs[0], k, rest);
      } else {
        GroupReads(d, b, c, cs, k, rest);
      }
  }

  lemma ExistsConditionReads<V>(d: Dialect, b: Binding<V>, negated: bool, q: SubqueryNode<V>, k: nat, rest: seq<Token>)
    requires AcceptedSubquery(q)
    requires ReadSubquery(b, Cursor(SubqueryTokens(d, q, At(b, k)) + ([Symbol(")")] + rest), k))
          == Ok(NormalizeSubquery(q), Cursor(rest, AfterAll(k, q.conditions)))
    ensures ReadsBack(d, b, Exists(negated, q), k, rest)
  {
    var inner, close := SubqueryTokens(d, q, At(b, k)), [Symbol(")")];
    ExistsReadsWith(b, negated, inner, k, NormalizeSubquery(q), Cursor(rest, AfterAll(k, q.conditions)), rest);
    assert Tokens(d, Exists(negated, q), At(b, k)) == ExistsTokens(negated) + inner + close;
  }

  lemma ExistsReadsWith<V>(b: Binding<V>, negated: bool, inner: seq<Token>, k: nat, q: SubqueryNode<V>,
                           next: Cursor, rest: seq<Token>)
    requires ReadSubquery(b, Cursor(inner + ([Symbol(")")] + rest), k)) == Ok(q, next)
    ensures ReadFactor(b, Cursor((ExistsTokens(negated) + inner + [Symbol(")")]) + rest, k))
         == Ok(Exists(negated, q), next)
  {
    ExistsReads(b, negated, inner + ([Symbol(")")] + rest), k, q, next);
    Nest3(ExistsTokens(negated), inner, [Symbol(")")], rest);
  }

  lemma InConditionReads<V>(d: Dialect, b: Binding<V>, field: string, q: SubqueryNode<V>, k: nat, rest: seq<Token>)
    requires IsQualified(field) && AcceptedSubquery(q)
    requires ReadSubquery(b, Cursor(SubqueryTokens(d, q, At(b, k)) + ([Symbol(")")] + rest), k))
          == Ok(NormalizeSubquery(q), Cursor(rest, AfterAll(k, q.conditions)))
    ensures ReadsBack(d, b, InSubquery(field, q), k, rest)
  {
    var inner, close := SubqueryTokens(d, q, At(b, k)), [Symbol(")")];
    InReadsWith(b, field, inner, k, NormalizeSubquery(q), Cursor(rest, AfterAll(k, q.conditions)), rest);
    assert Tokens(d, InSubquery(field, q), At(b, k)) == NameTokens(field) + InTokens(false) + inner + close;
  }

  lemma InReadsWith<V>(b: Binding<V>, field: string, inner: seq<Token>, k: nat, q: SubqueryNode<V>, next: Cursor,
                       rest: seq<Token>)
    requires IsQualified(field) && ReadSubquery(b, Cursor(inner + ([Symbol(")")] + rest), k)) == Ok(q, next)
    ensures ReadFactor(b, Cursor((NameTokens(field) + InTokens(false) + inner + [Symbol(")")]) + rest, k))
         == Ok(InSubquery(field, q), next)
  {
    InSubqueryReads(b, field, inner + ([Symbol(")")] + rest), k, q, next);
    Nest4(NameTokens(field), InTokens(false), inner, [Symbol(")")], rest);
  }

  lemma {:induction false} GroupReads<V>(d: Dialect, b: Binding<V>, c: Connective, cs: seq<CondNode<V>>, k: nat,
                                         rest: seq<Token>)
    requires Fits(d, b) && |cs| > 1 && AcceptedAll(cs) && ConvertedAll(d, cs) && Bound(b, k, ParamsAll(cs))
    ensures ReadFactor(b, Cursor(([Symbol("(")] + TokensAll(d, cs, c, At(b, k)) + [Symbol(")")]) + rest, k))
         == Ok(Group(c, NormalizeAll(cs)), Cursor(rest, AfterAll(k, cs)))
    decreases cs, 2
  {
    var ns, m, close := NormalizeAll(cs), k + |ParamsAll(cs)|, [Symbol(")")] + rest;
    var inner := TokensAll(d, cs, c, At(b, k));
    if c == And {
      ConjunctsRead(d, b, cs, k, close);
      ConjunctionAlone(b, Cursor(inner + close, k));
      ParenthesisReads(b, inner, [ns], k, m, rest);
    } else {
      DisjunctsRead(d, b, cs, k, close);
      ParenthesisReads(b, inner, Singles(ns), k, m, rest);
      SinglesDisjunction(ns);
    }
  }

  lemma ConjunctionAlone<V>(b: Binding<V>, c: Cursor)
    requires ReadConjuncts(b, c).Ok? && !([Word("OR")] <= ReadConjuncts(b, c).next.tokens)
    ensures ReadExpression(b, c) == Ok([ReadConjuncts(b, c).value], ReadConjuncts(b, c).next)
  {
  }

  lemma FactorAlone<V>(b: Binding<V>, c: Cursor)
    requires ReadFactor(b, c).Ok? && !([Word("AND")] <= ReadFactor(b, c).next.tokens)
    ensures ReadConjuncts(b, c) == Ok([ReadFactor(b, c).value], ReadFactor(b, c).next)
  {
  }

  lemma FactorAsDisjunct<V>(b: Binding<V>, c: Cursor)
    requires ReadFactor(b, c).Ok?
    requires var rest := ReadFactor(b, c).next.tokens; !([Word("AND")] <= rest) && !([Word("OR")] <= rest)
    ensures ReadExpression(b, c) == Ok([[ReadFactor(b, c).value]], ReadFactor(b, c).next)
  {
    FactorAlone(b, c);
    ConjunctionAlone(b, c);
  }

  lemma FactorAndMore<V>(b: Binding<V>, first: seq<Token>, inner: seq<Token>, t: CondNode<V>, ts: seq<CondNode<V>>,
                         k: nat, m: nat, end: Cursor)
    requires ReadFactor(b, Cursor(first + ([Word("AND")] + inner), k)) == Ok(t, Cursor([Word("AND")] + inner, m))
    requires ReadConjuncts(b, Cursor(inner, m)) == Ok(ts, end)
    ensures ReadConjuncts(b, Cursor(first + ([Word("AND")] + inner), k)) == Ok([t] + ts, end)
  {
    var after := [Word("AND")] + inner;
    assert after[0] == Word("AND") && after[1..] == inner;
  }

  lemma FactorOrMore<V>(b: Binding<V>, first: seq<Token>, inner: seq<Token>, t: CondNode<V>, ds: seq<seq<CondNode<V>>>,
                        k: nat, m: nat, end: Cursor)
    requires ReadFactor(b, Cursor(first + ([Word("OR")] + inner), k)) == Ok(t, Cursor([Word("OR")] + inner, m))
    requires ReadExpression(b, Cursor(inner, m)) == Ok(ds, end)
    ensures ReadExpression(b, Cursor(first + ([Word("OR")] + inner), k)) == Ok([[t]] + ds, end)
  {
    var after := [Word("OR")] + inner;
    assert after[0] == Word("OR") && after[1..] == inner;
    FactorAlone(b, Cursor(first + after, k));
  }

  lemma SinglesFront<T>(t: T, ts: seq<T>)
    ensures Singles([t] + ts) == [[t]] + Singles(ts)
  {
  }

  function Singles<T>(ts: seq<T>): seq<seq<T>> {
    seq(|ts|, i requires 0 <= i < |ts| => [ts[i]])
  }

  lemma SinglesDisjunction<V>(ts: seq<CondNode<V>>)
    requires |ts| > 1
    ensures Disjunction(Singles(ts)) == Group(Or, ts)
  {
    assert seq(|ts|, i requires 0 <= i < |ts| => Conjunction(Singles(ts)[i])) == ts;
  }

  /** A list of tokens taken apart; the rest of the members come after the first `next` parameters. */
  lemma TokensUnfold<V>(d: Dialect, cs: seq<CondNode<V>>, c: Connective, n: nat, next: nat, rest: seq<Token>)
    requires |cs| > 1 && AcceptedAll(cs) && next == After(n, cs[0])
    ensures TokensAll(d, cs, c, n) + rest
         == Tokens(d, cs[0], n) + ([ConnectiveToken(c)] + (TokensAll(d, cs[1..], c, next) + rest))
  {
    Nest3(Tokens(d, cs[0], n), [ConnectiveToken(c)], TokensAll(d, cs[1..], c, next), rest);
  }

  lemma ListUnfold<V>(cs: seq<CondNode<V>>, k: nat, m: nat)
    requires cs != [] && m == After(k, cs[0])
    ensures AfterAll(k, cs) == AfterAll(m, cs[1..])
    ensures NormalizeAll(cs) == [Normalize(cs[0])] + NormalizeAll(cs[1..])
  {
  }

  ghost predicate ConjunctsReadBack<V>(d: Dialect, b: Binding<V>, cs: seq<CondNode<V>>, k: nat, rest: seq<Token>)
    requires AcceptedAll(cs)
  {
    ReadConjuncts(b, Cursor(TokensAll(d, cs, And, At(b, k)) + rest, k))
      == Ok(NormalizeAll(cs), Cursor(rest, AfterAll(k, cs)))
  }

  lemma {:induction false} ConjunctsRead<V>(d: Dialect, b: Binding<V>, cs: seq<CondNode<V>>, k: nat, rest: seq<Token>)
    requires Fits(d, b) && cs != [] && AcceptedAll(cs) && ConvertedAll(d, cs) && Bound(b, k, ParamsAll(cs))
    requires Follow(rest) && !([Word("AND")] <= rest)
    ensures ConjunctsReadBack(d, b, cs, k, rest)
    decreases cs, 0
  {
    if |cs| == 1 {
      SingleMember(cs);
      FactorReads(d, b, cs[0], k, rest);
      FactorAlone(b, Cursor(Tokens(d, cs[0], At(b, k)) + rest, k));
      NormalizedOne(cs, k);
    } else {
      var m := After(k, cs[0]);
      BoundSplit(b, k, Params(cs[0]), ParamsAll(cs[1..]));
      var inner := TokensAll(d, cs[1..], And, At(b, m)) + rest;
      FactorReads(d, b, cs[0], k, [Word("AND")] + inner);
      ConjunctsRead(d, b, cs[1..], m, rest);
      MoreConjuncts(d, b, cs, k, m, rest);
    }
  }

  lemma MoreConjuncts<V>(d: Dialect, b: Binding<V>, cs: seq<CondNode<V>>, k: nat, m: nat, rest: seq<Token>)
    requires |cs| > 1 && AcceptedAll(cs) && m == After(k, cs[0])
    requires ReadsBack(d, b, cs[0], k, [Word("AND")] + (TokensAll(d, cs[1..], And, At(b, m)) + rest))
    requires ConjunctsReadBack(d, b, cs[1..], m, rest)
    ensures ConjunctsReadBack(d, b, cs, k, rest)
  {
    var inner := TokensAll(d, cs[1..], And, At(b, m)) + rest;
    FactorAndMore(b, Tokens(d, cs[0], At(b, k)), inner, Normalize(cs[0]), NormalizeAll(cs[1..]),
      k, m, Cursor(rest, AfterAll(m, cs[1..])));
    TokensUnfold(d, cs, And, At(b, k), At(b, m), rest);
    ListUnfold(cs, k, m);
  }

  ghost predicate DisjunctsReadBack<V>(d: Dialect, b: Binding<V>, cs: seq<CondNode<V>>, k: nat, rest: seq<Token>)
    requires AcceptedAll(cs)
  {
    ReadExpression(b, Cursor(TokensAll(d, cs, Or, At(b, k)) + rest, k))
      == Ok(Singles(NormalizeAll(cs)), Cursor(rest, AfterAll(k, cs)))
  }

  lemma OneDisjunct<V>(d: Dialect, b: Binding<V>, cs: seq<CondNode<V>>, k: nat, rest: seq<Token>)
    requires |cs| == 1 && AcceptedAll(cs) && ReadsBack(d, b, cs[0], k, rest)
    requires !([Word("AND")] <= rest) && !([Word("OR")] <= rest)
    ensures DisjunctsReadBack(d, b, cs, k, rest)
  {
    FactorAsDisjunct(b, Cursor(Tokens(d, cs[0], At(b, k)) + rest, k));
    SingleMember(cs);
    NormalizedOne(cs, k);
  }

  lemma {:induction false} DisjunctsRead<V>(d: Dialect, b: Binding<V>, cs: seq<CondNode<V>>, k: nat, rest: seq<Token>)
    requires Fits(d, b) && cs != [] && AcceptedAll(cs) && ConvertedAll(d, cs) && Bound(b, k, ParamsAll(cs))
    requires Follow(rest) && !([Word("AND")] <= rest) && !([Word("OR")] <= rest)
    ensures DisjunctsReadBack(d, b, cs, k, rest)
    decreases cs, 1
  {
    if |cs| == 1 {
      SingleMember(cs);
      FactorReads(d, b, cs[0], k, rest);
      OneDisjunct(d, b, cs, k, rest);
    } else {
      var m := After(k, cs[0]);
      var inner := TokensAll(d, cs[1..], Or, At(b, m)) + rest;
      BoundSplit(b, k, Params(cs[0]), ParamsAll(cs[1..]));
      FactorReads(d, b, cs[0], k, [Word("OR")] + inner);
      DisjunctsRead(d, b, cs[1..], m, rest);
      MoreDisjuncts(d, b, cs, k, m, rest);
    }
  }

  lemma MoreDisjuncts<V>(d: Dialect, b: Binding<V>, cs: seq<CondNode<V>>, k: nat, m: nat, rest: seq<Token>)
    requires |cs| > 1 && AcceptedAll(cs) && m == After(k, cs[0])
    requires ReadsBack(d, b, cs[0], k, [Word("OR")] + (TokensAll(d, cs[1..], Or, At(b, m)) + rest))
    requires DisjunctsReadBack(d, b, cs[1..], m, rest)
    ensures DisjunctsReadBack(d, b, cs, k, rest)
  {
    var inner, ns := TokensAll(d, cs[1..], Or, At(b, m)) + rest, NormalizeAll(cs[1..]);
    FactorOrMore(b, Tokens(d, cs[0], At(b, k)), inner, Normalize(cs[0]), Singles(ns),
      k, m, Cursor(rest, AfterAll(m, cs[1..])));
    TokensUnfold(d, cs, Or, At(b, k), At(b, m), rest);
    ListUnfold(cs, k, m);
    SinglesFront(Normalize(cs[0]), ns);
  }

  lemma NormalizedOne<V>(cs: seq<CondNode<V>>, k: nat)
    requires |cs| == 1
    ensures AfterAll(k, cs) == After(k, cs[0])
    ensures NormalizeAll(cs) == [Normalize(cs[0])]
    ensures Singles(NormalizeAll(cs)) == [[Normalize(cs[0])]]
  {
    assert NormalizeAll(cs) == [Normalize(cs[0])] + NormalizeAll(cs[1..]);
    SingleMember(cs);
  }

  lemma {:induction false} SubqueryReads<V>(d: Dialect, b: Binding<V>, q: SubqueryNode<V>, k: nat, rest: seq<Token>)
    requires Fits(d, b) && AcceptedSubquery(q) && ConvertedAll(d, q.conditions) && Bound(b, k, ParamsAll(q.conditions))
    ensures ReadSubquery(b, Cursor(SubqueryTokens(d, q, At(b, k)) + ([Symbol(")")] + rest), k))
         == Ok(NormalizeSubquery(q), Cursor(rest, AfterAll(k, q.conditions)))
    decreases q, 1
  {
    var close := [Symbol(")")] + rest;
    if q.conditions == [] {
      SelectReads(b, q.field, q.table, close, k);
      assert close[1..] == rest;
      assert SubqueryTokens(d, q, At(b, k)) == SelectTokens(q.field, q.table) + [] == SelectTokens(q.field, q.table);
    } else {
      ConjunctsRead(d, b, q.conditions, k, close);
      WhereReads(b, q.field, q.table, TokensAll(d, q.conditions, And, At(b, k)), NormalizeAll(q.conditions),
        k, k + |ParamsAll(q.conditions)|, rest);
    }
  }

  lemma WhereReads<V>(b: Binding<V>, field: string, table: string, list: seq<Token>, ts: seq<CondNode<V>>,
                      k: nat, m: nat, rest: seq<Token>)
    requires IsQualified(field)
    requires ReadConjuncts(b, Cursor(list + ([Symbol(")")] + rest), k)) == Ok(ts, Cursor([Symbol(")")] + rest, m))
    ensures ReadSubquery(b, Cursor((SelectTokens(field, table) + ([Word("WHERE")] + list)) + ([Symbol(")")] + rest), k))
         == Ok(SubqueryNode(table, field, ts), Cursor(rest, m))
  {
    var close := [Symbol(")")] + rest;
    var where := [Word("WHERE")] + (list + close);
    SelectReads(b, field, table, where, k);
    assert where[0] == Word("WHERE") && where[1..] == list + close;
    ConjunctionAlone(b, Cursor(list + close, k));
    assert close[0] == Symbol(")") && close[1..] == rest;
    Append2(SelectTokens(field, table), [Word("WHERE")] + list, close);
    Append2([Word("WHERE")], list, close);
  }

  /** The reader, past the table name of a subquery. */
  function AfterTable<V>(b: Binding<V>, field: string, table: string, c: Cursor): Parsed<SubqueryNode<V>> {
    if [Symbol(")")] <= c.tokens then Ok(SubqueryNode(table, field, []), Skip(c, 1))
    else if [Word("WHERE")] <= c.tokens then
      match ReadExpression(b, Skip(c, 1))
      case Fail => Fail
      case Ok(ds, c1) =>
        if [Symbol(")")] <= c1.tokens then
          Ok(SubqueryNode(table, field, if |ds| == 1 then ds[0] else [Disjunction(ds)]), Skip(c1, 1))
        else Fail
    else Fail
  }

  lemma SelectReads<V>(b: Binding<V>, field: string, table: string, after: seq<Token>, k: nat)
    requires IsQualified(field) && after != []
    ensures ReadSubquery(b, Cursor(SelectTokens(field, table) + after, k))
         == AfterTable(b, field, table, Cursor(after, k))
  {
    var from := [Word("FROM")] + ([Quoted(table)] + after);
    var tokens := [Word("SELECT")] + (NameTokens(field) + from);
    Nest4([Word("SELECT")], NameTokens(field), [Word("FROM")], [Quoted(table)], after);
    NameReads(field, from, k);
    assert tokens[0] == Word("SELECT") && tokens[1..] == NameTokens(field) + from;
    TableReads(b, tokens, field, table, from, after, k);
  }

  lemma NameReads(field: string, from: seq<Token>, k: nat)
    requires IsQualified(field) && from != [] && from[0] != Symbol(".")
    ensures ReadName(Cursor(NameTokens(field) + from, k)) == Ok(field, Cursor(from, k))
  {
  }

  lemma TableReads<V>(b: Binding<V>, tokens: seq<Token>, field: string, table: string, from: seq<Token>,
                      after: seq<Token>, k: nat)
    requires [Word("SELECT")] <= tokens && ReadName(Cursor(tokens[1..], k)) == Ok(field, Cursor(from, k))
    requires from == [Word("FROM")] + ([Quoted(table)] + after) && after != []
    ensures ReadSubquery(b, Cursor(tokens, k)) == AfterTable(b, field, table, Cursor(after, k))
  {
    assert from[0] == Word("FROM") && from[1] == Quoted(table) && from[2..] == after;
  }

  // ---------- the round trip ----------

  /**
   Reading the rendered text with the rendered parameters gives back the condition, up to groups of
   one member, in both dialects and for any number of parameters already in the statement.
   */
  lemma RoundTrip<V>(d: Dialect, t: CondNode<V>, offset: nat)
    requires IsDialect(d) && Accepted(t) && Converted(d, t)
    ensures Read(d, offset, Sql(d, t, offset), Params(t)) == Some(Normalize(t))
  {
    var b, sql, tokens := Binding(d.numbered, offset, Params(t)), Sql(d, t, offset), Tokens(d, t, offset);
    LexCondition(d, t, offset, "");
    assert sql + "" == sql && tokens + [] == tokens;
    assert Lex(d.quote, sql) == tokens;
    assert Bound(b, 0, Params(t));
    assert At(b, 0) == offset;
    FactorReads(d, b, t, 0, []);
    FactorAsDisjunct(b, Cursor(tokens, 0));
  }
}
