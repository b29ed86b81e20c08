/**
 The dialect-neutral condition tree and its renderer.
 `Sql` and `Params` say what text and which bound values a tree stands for; `Writer` is the renderer
 that appends to one buffer of text and one list of parameters as it walks the tree.
 */
module Conditions {
  import opened Wrappers
  import opened Sequences
  import opened Identifiers
  import opened Numerals

  datatype Dialect = Dialect(quote: char, numbered: bool)

  const MYSQL := Dialect('`', false)
  const POSTGRES := Dialect('"', true)

  datatype CompareOp = Eq | Ne | Gt | Lt | Gte | Lte

  function OpText(op: CompareOp): string {
    match op
    case Eq => "="
    case Ne => "!="
    case Gt => ">"
    case Lt => "<"
    case Gte => ">="
    case Lte => "<="
  }

  datatype Connective = And | Or

  /** The separator between the members of a group. */
  function Separator(c: Connective): string {
    if c.And? then " AND " else " OR "
  }

  /**
   The condition tree. The six value comparisons of the source are one constructor with an operator,
   and each pair of a condition and its NOT form is one constructor with a flag.
   */
  datatype CondNode<+V> =
    | Compare(op: CompareOp, field: string, value: V)
    | InList(negated: bool, field: string, values: seq<V>)
    | Between(field: string, low: V, high: V)
    | Like(field: string, pattern: V)
    | IsNull(negated: bool, field: string)
    | ColumnComparison(left: string, op: CompareOp, right: string)
    | ColumnExpr(field: string, op: CompareOp, fragment: string, param: Option<V>)
    | Exists(negated: bool, subquery: SubqueryNode<V>)
    | InSubquery(field: string, subquery: SubqueryNode<V>)
    | Group(connective: Connective, conditions: seq<CondNode<V>>)

  datatype SubqueryNode<+V> = SubqueryNode(table: string, field: string, conditions: seq<CondNode<V>>)

  // ---------- which trees are accepted ----------

  /** No invalid identifier, no empty value list and no empty group anywhere. */
  predicate Accepted<V>(t: CondNode<V>)
    decreases t, 1
  {
    match t
    case Compare(_, field, _) => IsQualified(field)
    case InList(_, field, values) => values != [] && IsQualified(field)
    case Between(field, _, _) => IsQualified(field)
    case Like(field, _) => IsQualified(field)
    case IsNull(_, field) => IsQualified(field)
    case ColumnComparison(left, _, right) => IsQualified(left) && IsQualified(right)
    case ColumnExpr(field, _, _, _) => IsQualified(field)
    case Exists(_, q) => AcceptedSubquery(q)
    case InSubquery(field, q) => IsQualified(field) && AcceptedSubquery(q)
    case Group(_, cs) => cs != [] && AcceptedAll(cs)
  }

  predicate AcceptedAll<V>(cs: seq<CondNode<V>>)
    decreases cs, 0
  {
    cs == [] || (Accepted(cs[0]) && AcceptedAll(cs[1..]))
  }

  predicate AcceptedSubquery<V>(q: SubqueryNode<V>)
    decreases q, 1
  {
    IsQualified(q.field) && IsIdentifier(q.table) && AcceptedAll(q.conditions)
  }

  // ---------- faults ----------

  /** The condition and all conditions inside it, also those of its subqueries. */
  function Nodes<V>(t: CondNode<V>): seq<CondNode<V>>
    decreases t, 1
  {
    match t
    case Exists(_, q) => [t] + NodesAll(q.conditions)
    case InSubquery(_, q) => [t] + NodesAll(q.conditions)
    case Group(_, cs) => [t] + NodesAll(cs)
    case _ => [t]
  }

  function NodesAll<V>(cs: seq<CondNode<V>>): seq<CondNode<V>>
    decreases cs, 0
  {
    if cs == [] then [] else Nodes(cs[0]) + NodesAll(cs[1..])
  }

  /** The fields a condition names itself, without those inside it. */
  function FieldNames<V>(t: CondNode<V>): seq<string> {
    match t
    case ColumnComparison(left, _, right) => [left, right]
    case Exists(_, q) => [q.field]
    case InSubquery(field, q) => [field, q.field]
    case Group(_, _) => []
    case _ => [t.field]
  }

  function TableNames<V>(t: CondNode<V>): seq<string> {
    if t.Exists? || t.InSubquery? then [t.subquery.table] else []
  }

  /**
   What can be wrong with one condition, whatever its operator, connective or negation: a field that is no
   qualified identifier, a table that is no identifier, a list of values or a group that is empty.
   */
  predicate Faulty<V>(t: CondNode<V>) {
    || (exists i :: 0 <= i < |FieldNames(t)| && !IsQualified(FieldNames(t)[i]))
    || (exists i :: 0 <= i < |TableNames(t)| && !IsIdentifier(TableNames(t)[i]))
    || (t.InList? && t.values == []) || (t.Group? && t.conditions == [])
  }

  ghost predicate Faultless<V>(ts: seq<CondNode<V>>) {
    forall i :: 0 <= i < |ts| ==> !Faulty(ts[i])
  }

  lemma FaultlessSplits<V>(a: seq<CondNode<V>>, b: seq<CondNode<V>>)
    ensures Faultless(a + b) <==> Faultless(a) && Faultless(b)
  {
    if Faultless(a + b) {
      assert forall i :: 0 <= i < |a| ==> a[i] == (a + b)[i];
      assert forall i :: 0 <= i < |b| ==> b[i] == (a + b)[|a| + i];
    }
  }

  /** Exactly the trees without a fault anywhere are accepted. */
  lemma {:induction false} AcceptedExactly<V>(t: CondNode<V>)
    ensures Accepted(t) <==> Faultless(Nodes(t))
    decreases t, 1
  {
    NoFaultAlone(t);
    assert Faultless([t]) <==> !Faulty(t) by {
      assert [t][0] == t;
    }
    match t
    case Exists(_, q) =>
      AllAcceptedExactly(q.conditions);
      FaultlessSplits([t], NodesAll(q.conditions));
    case InSubquery(_, q) =>
      AllAcceptedExactly(q.conditions);
      FaultlessSplits([t], NodesAll(q.conditions));
    case Group(_, cs) =>
      AllAcceptedExactly(cs);
      FaultlessSplits([t], NodesAll(cs));
    case _ =>
  }

  lemma {:induction false} AllAcceptedExactly<V>(cs: seq<CondNode<V>>)
    ensures AcceptedAll(cs) <==> Faultless(NodesAll(cs))
    decreases cs, 0
  {
    if cs != [] {
      AcceptedExactly(cs[0]);
      AllAcceptedExactly(cs[1..]);
      FaultlessSplits(Nodes(cs[0]), NodesAll(cs[1..]));
    }
  }

  lemma NoFaultAlone<V>(t: CondNode<V>)
    ensures !Faulty(t) <==> match t
      case InList(_, field, values) => values != [] && IsQualified(field)
      case ColumnComparison(left, _, right) => IsQualified(left) && IsQualified(right)
      case Exists(_, q) => IsQualified(q.field) && IsIdentifier(q.table)
      case InSubquery(field, q) => IsQualified(field) && IsQualified(q.field) && IsIdentifier(q.table)
      case Group(_, cs) => cs != []
      case _ => IsQualified(t.field)
  {
    var fields, tables := FieldNames(t), TableNames(t);
    assert fields == [] || fields == [fields[0]] || fields == [fields[0], fields[1]];
    assert tables == [] || tables == [tables[0]];
  }

  // ---------- the bound values, left to right ----------

  function Params<V>(t: CondNode<V>): seq<V>
    decreases t, 1
  {
    match t
    case Compare(_, _, value) => [value]
    case InList(_, _, values) => values
    case Between(_, low, high) => [low, high]
    case Like(_, pattern) => [pattern]
    case IsNull(_, _) => []
    case ColumnComparison(_, _, _) => []
    case ColumnExpr(_, _, _, param) => if param.Some? then [param.value] else []
    case Exists(_, q) => ParamsAll(q.conditions)
    case InSubquery(_, q) => ParamsAll(q.conditions)
    case Group(_, cs) => ParamsAll(cs)
  }

  function ParamsAll<V>(cs: seq<CondNode<V>>): seq<V>
    decreases cs, 0
  {
    if cs == [] then [] else Params(cs[0]) + ParamsAll(cs[1..])
  }

  /** How many parameters there are once a condition has pushed its own. */
  function After<V>(n: nat, t: CondNode<V>): nat {
    n + |Params(t)|
  }

  // ---------- the text ----------

  /** The n-th placeholder of a statement. */
  function Placeholder(d: Dialect, n: nat): string {
    if d.numbered then "$" + Decimal(n) else "?"
  }

  /** `count` placeholders after the first n, separated by commas. */
  function PlaceholderList(d: Dialect, count: nat, n: nat): string {
    if count == 0 then ""
    else if count == 1 then Placeholder(d, n + 1)
    else PlaceholderList(d, count - 1, n) + ", " + Placeholder(d, n + count)
  }

  lemma NextPlaceholder(d: Dialect, start: string, count: nat, n: nat)
    ensures start + PlaceholderList(d, count, n) + (if count > 0 then ", " else "") + Placeholder(d, n + count + 1)
         == start + PlaceholderList(d, count + 1, n)
  {
    if count > 0 {
      Append3(start, PlaceholderList(d, count, n), ", ", Placeholder(d, n + count + 1));
    } else {
      assert start + "" + "" == start;
    }
  }

  /** The text of a condition written after n parameters. */
  function Sql<V>(d: Dialect, t: CondNode<V>, n: nat): string
    requires Accepted(t)
    decreases t, 1
  {
    match t
    case Compare(op, field, _) =>
      QuoteQualified(field, d.quote) + (" " + OpText(op) + " ") + Placeholder(d, n + 1)
    case InList(negated, field, values) =>
      QuoteQualified(field, d.quote) + (if negated then " NOT IN (" else " IN (")
        + PlaceholderList(d, |values|, n) + ")"
    case Between(field, _, _) =>
      QuoteQualified(field, d.quote) + " BETWEEN " + Placeholder(d, n + 1) + " AND " + Placeholder(d, n + 2)
    case Like(field, _) =>
      QuoteQualified(field, d.quote) + " LIKE " + Placeholder(d, n + 1)
    case IsNull(negated, field) =>
      QuoteQualified(field, d.quote) + (if negated then " IS NOT NULL" else " IS NULL")
    case ColumnComparison(left, op, right) =>
      QuoteQualified(left, d.quote) + (" " + OpText(op) + " ") + QuoteQualified(right, d.quote)
    case ColumnExpr(field, op, fragment, _) =>
      QuoteQualified(field, d.quote) + (" " + OpText(op) + " ") + fragment
    case Exists(negated, q) =>
      (if negated then "NOT EXISTS (" else "EXISTS (") + SubquerySql(d, q, n) + ")"
    case InSubquery(field, q) =>
      QuoteQualified(field, d.quote) + " IN (" + SubquerySql(d, q, n) + ")"
    case Group(connective, cs) =>
      if |cs| == 1 then Sql(d, cs[0], n) else "(" + SqlAll(d, cs, connective, n) + ")"
  }

  /** The conditions one after the other with a separator between them. */
  function SqlAll<V>(d: Dialect, cs: seq<CondNode<V>>, c: Connective, n: nat): string
    requires AcceptedAll(cs)
    decreases cs, 0
  {
    if cs == [] then ""
    else if |cs| == 1 then Sql(d, cs[0], n)
    else Sql(d, cs[0], n) + Separator(c) + SqlAll(d, cs[1..], c, After(n, cs[0]))
  }

  function SubquerySql<V>(d: Dialect, q: SubqueryNode<V>, n: nat): string
    requires AcceptedSubquery(q)
    decreases q, 1
  {
    "SELECT " + QuoteQualified(q.field, d.quote) + " FROM " + QuotePart(q.table, d.quote)
      + if q.conditions == [] then "" else " WHERE " + SqlAll(d, q.conditions, And, n)
  }

  // ---------- the renderer ----------

  class Writer<V> {
    const dialect: Dialect
    const offset: nat
    var out: string
    var params: seq<V>

    constructor (dialect: Dialect, offset: nat)
      ensures this.dialect == dialect && this.offset == offset
      ensures out == "" && params == []
    {
      this.dialect, this.offset, out, params := dialect, offset, "", [];
    }

    /** How many parameters the statement has so far. */
    ghost function Count(): nat
      reads this`params
    {
      offset + |params|
    }

    method PushParam(value: V)
      modifies this
      ensures params == old(params) + [value]
      ensures out == old(out) + Placeholder(dialect, old(Count()) + 1)
    {
      params := params + [value];
      if dialect.numbered {
        Append2(out, "$", Decimal(offset + |params|));
        out := out + "$" + Decimal(offset + |params|);
      } else {
        out := out + "?";
      }
    }

    method WriteQualified(field: string) returns (ok: bool)
      modifies this`out
      ensures ok == IsQualified(field)
      ensures ok ==> out == old(out) + QuoteQualified(field, dialect.quote)
    {
      ok := IsQualified(field);
      if ok {
        out := out + QuoteQualified(field, dialect.quote);
      }
    }

    /** The field, a fixed text and one placeholder: the value comparisons and LIKE. */
    method WriteBinary(field: string, middle: string, value: V) returns (ok: bool)
      modifies this
      ensures ok == IsQualified(field)
      ensures ok ==> params == old(params) + [value]
      ensures ok ==> var text := QuoteQualified(field, dialect.quote) + middle;
        out == old(out) + (text + Placeholder(dialect, old(Count()) + 1))
    {
      ok := WriteQualified(field);
      if ok {
        out := out + middle;
        PushParam(value);
        Append3(old(out), QuoteQualified(field, dialect.quote), middle, Placeholder(dialect, Count()));
      }
    }

    method WriteBetween(field: string, low: V, high: V) returns (ok: bool)
      modifies this
      ensures ok == IsQualified(field)
      ensures ok ==> params == old(params) + [low, high]
      ensures ok ==> out == old(out) + Sql(dialect, Between(field, low, high), old(Count()))
    {
      ok := WriteBinary(field, " BETWEEN ", low);
      if ok {
        label L:
        out := out + " AND ";
        PushParam(high);
        Append3(old(out), old@L(out)[|old(out)|..], " AND ", Placeholder(dialect, Count()));
      }
    }

    /** The loop over the values of an IN list. */
    method WriteItem(value: V, index: nat, ghost start: string, ghost n: nat)
      requires out == start + PlaceholderList(dialect, index, n) && Count() == n + index
      modifies this
      ensures params == old(params) + [value]
      ensures out == start + PlaceholderList(dialect, index + 1, n)
    {
      NextPlaceholder(dialect, start, index, n);
      if index > 0 {
        out := out + ", ";
      }
      PushParam(value);
    }

    method WriteList(values: seq<V>)
      modifies this
      ensures params == old(params) + values
      ensures out == old(out) + PlaceholderList(dialect, |values|, old(Count()))
    {
      ghost var n := Count();
      for index := 0 to |values|
        invariant params == old(params) + values[..index]
        invariant out == old(out) + PlaceholderList(dialect, index, n)
      {
        WriteItem(values[index], index, old(out), n);
        assert values[..index + 1] == values[..index] + [values[index]];
      }
      assert values[..|values|] == values;
    }

    method WriteIn(negated: bool, field: string, values: seq<V>) returns (ok: bool)
      modifies this
      ensures ok == (values != [] && IsQualified(field))
      ensures ok ==> params == old(params) + values
      ensures ok ==> out == old(out) + Sql(dialect, InList(negated, field, values), old(Count()))
    {
      if values == [] {
        return false;
      }
      ok := WriteQualified(field);
      if ok {
        out := out + if negated then " NOT IN (" else " IN (";
        WriteList(values);
        out := out + ")";
        Append4(old(out), QuoteQualified(field, dialect.quote), if negated then " NOT IN (" else " IN (",
          PlaceholderList(dialect, |values|, old(Count())), ")");
      }
    }

    method WriteIsNull(negated: bool, field: string) returns (ok: bool)
      modifies this
      ensures ok == IsQualified(field)
      ensures ok ==> params == old(params)
      ensures ok ==> out == old(out) + Sql<V>(dialect, IsNull(negated, field), old(Count()))
    {
      ok := WriteQualified(field);
      if ok {
        out := out + if negated then " IS NOT NULL" else " IS NULL";
        Append2(old(out), QuoteQualified(field, dialect.quote), if negated then " IS NOT NULL" else " IS NULL");
      }
    }

    method WriteColumns(left: string, op: CompareOp, right: string) returns (ok: bool)
      modifies this
      ensures ok == (IsQualified(left) && IsQualified(right))
      ensures ok ==> params == old(params)
      ensures ok ==> out == old(out) + Sql<V>(dialect, ColumnComparison(left, op, right), old(Count()))
    {
      ok := WriteQualified(left);
      if ok {
        out := out + (" " + OpText(op) + " ");
        ok := WriteQualified(right);
        if ok {
          Append3(old(out), QuoteQualified(left, dialect.quote), " " + OpText(op) + " ",
            QuoteQualified(right, dialect.quote));
        }
      }
    }

    method WriteExpr(field: string, op: CompareOp, fragment: string, param: Option<V>) returns (ok: bool)
      modifies this
      ensures ok == IsQualified(field)
      ensures ok ==> params == old(params) + Params(ColumnExpr(field, op, fragment, param))
      ensures ok ==> out == old(out) + Sql(dialect, ColumnExpr(field, op, fragment, param), old(Count()))
    {
      ok := WriteQualified(field);
      if ok {
        out := out + (" " + OpText(op) + " ");
        out := out + fragment;
        Append3(old(out), QuoteQualified(field, dialect.quote), " " + OpText(op) + " ", fragment);
        if param.Some? {
          params := params + [param.value];
        }
      }
    }

    /** Appends one condition; `ok` is false where the source returns an error. */
    method WriteCondition(t: CondNode<V>) returns (ok: bool)
      modifies this
      ensures ok == Accepted(t)
      ensures ok ==> out == old(out) + Sql(dialect, t, old(Count()))
      ensures ok ==> params == old(params) + Params(t)
      decreases t, 1
    {
      match t
      case Compare(op, field, value) =>
        ok := WriteBinary(field, " " + OpText(op) + " ", value);
      case InList(negated, field, values) =>
        ok := WriteIn(negated, field, values);
      case Between(field, low, high) =>
        ok := WriteBetween(field, low, high);
      case Like(field, pattern) =>
        ok := WriteBinary(field, " LIKE ", pattern);
      case IsNull(negated, field) =>
        ok := WriteIsNull(negated, field);
      case ColumnComparison(left, op, right) =>
        ok := WriteColumns(left, op, right);
      case ColumnExpr(field, op, fragment, param) =>
        ok := WriteExpr(field, op, fragment, param);
      case Exists(negated, q) =>
        out := out + if negated then "NOT EXISTS (" else "EXISTS (";
        ok := WriteSubquery(q);
        if ok {
          out := out + ")";
          Append3(old(out), if negated then "NOT EXISTS (" else "EXISTS (",
            SubquerySql(dialect, q, old(Count())), ")");
        }
      case InSubquery(field, q) =>
        ok := WriteQualified(field);
        if ok {
          out := out + " IN (";
          ok := WriteSubquery(q);
          if ok {
            out := out + ")";
            Append4(old(out), QuoteQualified(field, dialect.quote), " IN (",
              SubquerySql(dialect, q, old(Count())), ")");
          }
        }
      case Group(connective, cs) =>
        if cs == [] {
          return false;
        }
        if |cs| == 1 {
          SingleMember(cs);
          ok := WriteCondition(cs[0]);
          return;
        }
        out := out + "(";
        ok := WriteAll(cs, connective);
        if ok {
          out := out + ")";
          Append3(old(out), "(", SqlAll(dialect, cs, connective, old(Count())), ")");
        }
    }

    /** The members written so far, after what was there. */
    ghost predicate Written(start: string, before: seq<V>, n: nat, done: seq<CondNode<V>>, c: Connective)
      reads this
    {
      && AcceptedAll(done) && n == offset + |before|
      && out == start + SqlAll(dialect, done, c, n) && params == before + ParamsAll(done)
    }

    /** One turn of the loop below: a separator unless it is the first, and a condition. */
    method WriteNext(t: CondNode<V>, c: Connective, first: bool,
                     ghost start: string, ghost before: seq<V>, ghost n: nat, ghost done: seq<CondNode<V>>)
      returns (ok: bool)
      requires Written(start, before, n, done, c) && first == (done == [])
      modifies this
      ensures ok == Accepted(t)
      ensures ok ==> Written(start, before, n, done + [t], c)
      decreases t, 2
    {
      ghost var k := Count();
      ListExtended(done, t);
      if !first {
        out := out + Separator(c);
      }
      ok := WriteCondition(t);
      if ok {
        NextText(dialect, start, done, t, c, n, k);
        Append2(before, ParamsAll(done), Params(t));
      }
    }

    /** The loop over the members of a group or of a WHERE list. */
    method WriteAll(cs: seq<CondNode<V>>, c: Connective) returns (ok: bool)
      modifies this
      ensures ok == AcceptedAll(cs)
      ensures ok ==> out == old(out) + SqlAll(dialect, cs, c, old(Count()))
      ensures ok ==> params == old(params) + ParamsAll(cs)
      decreases cs, 1
    {
      ghost var start, before, n := out, params, Count();
      for index := 0 to |cs|
        invariant Written(start, before, n, cs[..index], c)
      {
        TakeNext(cs, index);
        ok := WriteNext(cs[index], c, index == 0, start, before, n, cs[..index]);
        if !ok {
          AcceptedAt(cs, index);
          return;
        }
      }
      TakeAll(cs);
      return true;
    }

    method WriteSubquery(q: SubqueryNode<V>) returns (ok: bool)
      modifies this
      ensures ok == AcceptedSubquery(q)
      ensures ok ==> out == old(out) + SubquerySql(dialect, q, old(Count()))
      ensures ok ==> params == old(params) + ParamsAll(q.conditions)
      decreases q, 1
    {
      out := out + "SELECT ";
      ok := WriteQualified(q.field);
      if !ok {
        return;
      }
      out := out + " FROM ";
      if !IsIdentifier(q.table) {
        return false;
      }
      out := out + QuotePart(q.table, dialect.quote);
      ghost var field, table := QuoteQualified(q.field, dialect.quote), QuotePart(q.table, dialect.quote);
      Append4(old(out), "SELECT ", field, " FROM ", table);
      if q.conditions != [] {
        out := out + " WHERE ";
        ok := WriteAll(q.conditions, And);
        if ok {
          ghost var head, conditions := "SELECT " + field + " FROM " + table, SqlAll(dialect, q.conditions, And,
                                                                                     old(Count()));
          Append3(old(out), head, " WHERE ", conditions);
          Append2(head, " WHERE ", conditions);
        }
      }
    }
  }

  lemma SingleMember<V>(cs: seq<CondNode<V>>)
    requires |cs| == 1
    ensures AcceptedAll(cs) == Accepted(cs[0]) && ParamsAll(cs) == Params(cs[0])
  {
    assert ParamsAll(cs) == Params(cs[0]) + ParamsAll(cs[1..]);
  }

  lemma {:induction false} AcceptedAt<V>(cs: seq<CondNode<V>>, i: nat)
    requires i < |cs| && !Accepted(cs[i])
    ensures !AcceptedAll(cs)
  {
    if i > 0 {
      AcceptedAt(cs[1..], i - 1);
    }
  }

  /** The text of a longer list, whose last member's parameters come after the first k. */
  ghost function Extended<V>(d: Dialect, cs: seq<CondNode<V>>, t: CondNode<V>, c: Connective, n: nat, k: nat): string
    requires AcceptedAll(cs) && Accepted(t)
  {
    if cs == [] then Sql(d, t, k) else SqlAll(d, cs, c, n) + Separator(c) + Sql(d, t, k)
  }

  lemma {:induction false} ListExtended<V>(cs: seq<CondNode<V>>, t: CondNode<V>)
    requires AcceptedAll(cs)
    ensures ParamsAll(cs + [t]) == ParamsAll(cs) + Params(t)
    ensures AcceptedAll(cs + [t]) <==> Accepted(t)
  {
    if cs == [] {
      assert cs + [t] == [t] && [t][1..] == [];
    } else {
      assert (cs + [t])[0] == cs[0] && (cs + [t])[1..] == cs[1..] + [t];
      ListExtended(cs[1..], t);
    }
  }

  lemma HeadAndTail<V>(cs: seq<CondNode<V>>, head: CondNode<V>, tail: seq<CondNode<V>>)
    requires cs == [head] + tail && AcceptedAll(cs)
    ensures Accepted(head) && AcceptedAll(tail) && ParamsAll(cs) == Params(head) + ParamsAll(tail)
  {
    assert cs[0] == head && cs[1..] == tail;
  }

  /** The text of a list from that of its tail. */
  lemma FrontText<V>(d: Dialect, cs: seq<CondNode<V>>, head: CondNode<V>, tail: seq<CondNode<V>>, c: Connective,
                     n: nat, m: nat)
    requires cs == [head] + tail && AcceptedAll(cs) && Accepted(head) && AcceptedAll(tail) && m == After(n, head)
    ensures SqlAll(d, cs, c, n) == InFront(Sql(d, head, n), Separator(c), SqlAll(d, tail, c, m), tail == [])
  {
    assert cs[0] == head && cs[1..] == tail;
  }

  /** A member in front of a list: its text, the separator and the text of the list. */
  function InFront(first: string, separator: string, others: string, single: bool): string {
    if single then first else first + separator + others
  }

  lemma LongerText(first: string, separator: string, middle: string, last: string, single: bool)
    ensures InFront(first, separator, if single then last else middle + separator + last, false)
         == InFront(first, separator, middle, single) + separator + last
  {
    Append3(first + separator, middle, separator, last);
  }

  /** The lists grow at the end in the writer and at the front in the definitions. */
  lemma {:induction false} AllExtended<V>(d: Dialect, cs: seq<CondNode<V>>, t: CondNode<V>, c: Connective, n: nat,
                                          k: nat)
    requires AcceptedAll(cs) && Accepted(t) && AcceptedAll(cs + [t]) && k == n + |ParamsAll(cs)|
    ensures SqlAll(d, cs + [t], c, n) == Extended(d, cs, t, c, n, k)
  {
    if cs == [] {
      assert cs + [t] == [t];
    } else {
      var head, tail := cs[0], cs[1..];
      var m := After(n, head);
      ListSplits(cs, t);
      HeadAndTail(cs, head, tail);
      HeadAndTail(cs + [t], head, tail + [t]);
      AllExtended(d, tail, t, c, m, k);
      FrontText(d, cs, head, tail, c, n, m);
      FrontText(d, cs + [t], head, tail + [t], c, n, m);
      LongerText(Sql(d, head, n), Separator(c), SqlAll(d, tail, c, m), Sql(d, t, k), tail == []);
    }
  }

  lemma ListSplits<V>(cs: seq<CondNode<V>>, t: CondNode<V>)
    requires cs != []
    ensures cs == [cs[0]] + cs[1..] && cs + [t] == [cs[0]] + (cs[1..] + [t])
  {
  }

  /** The text after one turn of a loop over a list. */
  lemma NextText<V>(d: Dialect, start: string, done: seq<CondNode<V>>, t: CondNode<V>, c: Connective, n: nat, k: nat)
    requires AcceptedAll(done) && Accepted(t) && AcceptedAll(done + [t]) && k == n + |ParamsAll(done)|
    ensures var before := start + SqlAll(d, done, c, n);
      (if done == [] then before else before + Separator(c)) + Sql(d, t, k) == start + SqlAll(d, done + [t], c, n)
  {
    AllExtended(d, done, t, c, n, k);
    Continued(start, SqlAll(d, done, c, n), Separator(c), Sql(d, t, k), done == [], SqlAll(d, done + [t], c, n));
  }

  lemma Continued(start: string, done: string, separator: string, last: string, first: bool, longer: string)
    requires longer == if first then last else done + separator + last
    requires first ==> done == ""
    ensures (if first then start + done else start + done + separator) + last == start + longer
  {
    Append3(start, done, separator, last);
  }

  datatype Rendered<+V> = Rendered(sql: string, params: seq<V>)

  /** Renders one condition; on an error the caller sees no text and no parameters. */
  method RenderCondition<V>(d: Dialect, t: CondNode<V>, offset: nat) returns (r: Option<Rendered<V>>)
    ensures r.Some? <==> Accepted(t)
    ensures r.None? <==> exists i :: 0 <= i < |Nodes(t)| && Faulty(Nodes(t)[i])
    ensures r.Some? ==> r.value == Rendered(Sql(d, t, offset), Params(t))
  {
    AcceptedExactly(t);
    var writer := new Writer<V>(d, offset);
    var ok := writer.WriteCondition(t);
    if ok {
      assert "" + Sql(d, t, offset) == Sql(d, t, offset);
      return Some(Rendered(writer.out, writer.params));
    }
    return None;
  }

  // ---------- one text in both dialects ----------

  lemma NameText(quote: char, field: string)
    requires IsIdentifier(field)
    ensures IsQualified(field) && QuoteQualified(field, quote) == [quote] + field + [quote]
  {
    assert '.' !in field;
  }

  /** A name, an equals sign and a placeholder. */
  function Equality(quote: char, field: string, placeholder: string): string {
    [quote] + field + [quote] + " = " + placeholder
  }

  lemma EqualityText<V>(d: Dialect, field: string, x: V, n: nat)
    requires IsIdentifier(field)
    ensures Accepted(Compare(Eq, field, x)) && After(n, Compare(Eq, field, x)) == n + 1
    ensures Sql(d, Compare(Eq, field, x), n) == Equality(d.quote, field, Placeholder(d, n + 1))
  {
    NameText(d.quote, field);
    Append3([d.quote] + field + [d.quote], " ", "=", " ");
  }

  /** Two equalities joined by OR: backticks and question marks for one dialect, quotes and numbers for the other. */
  lemma EitherText<V>(field: string, x: V, y: V)
    requires IsIdentifier(field)
    ensures var either := Group(Or, [Compare(Eq, field, x), Compare(Eq, field, y)]);
      && Accepted(either)
      && Sql(MYSQL, either, 0) == "(" + (Equality('`', field, "?") + " OR " + Equality('`', field, "?")) + ")"
      && Sql(POSTGRES, either, 0) == "(" + (Equality('"', field, "$1") + " OR " + Equality('"', field, "$2")) + ")"
  {
    var a, b := Compare(Eq, field, x), Compare(Eq, field, y);
    EqualityText(MYSQL, field, x, 0);
    EqualityText(MYSQL, field, y, 1);
    EqualityText(POSTGRES, field, x, 0);
    EqualityText(POSTGRES, field, y, 1);
    EitherOfTwo(MYSQL, a, b);
    EitherOfTwo(POSTGRES, a, b);
    assert Placeholder(POSTGRES, 1) == "$1" && Placeholder(POSTGRES, 2) == "$2";
  }

  lemma EitherOfTwo<V>(d: Dialect, a: CondNode<V>, b: CondNode<V>)
    requires Accepted(a) && Accepted(b)
    ensures var either := Group(Or, [a, b]);
      Accepted(either) && Sql(d, either, 0) == "(" + (Sql(d, a, 0) + " OR " + Sql(d, b, After(0, a))) + ")"
  {
    TwoMembers(d, a, b);
  }

  lemma TwoMembers<V>(d: Dialect, a: CondNode<V>, b: CondNode<V>)
    requires Accepted(a) && Accepted(b)
    ensures AcceptedAll([a, b]) && SqlAll(d, [a, b], Or, 0) == Sql(d, a, 0) + " OR " + Sql(d, b, After(0, a))
  {
    assert [a, b][1..] == [b] && [b][1..] == [];
    assert AcceptedAll([b]);
  }
}
