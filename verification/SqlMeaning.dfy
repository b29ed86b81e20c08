/**
 What a condition means in the three-valued logic of section 8.12 of ISO/IEC 9075:1992, and the main
 result of the renderer: the text, read back, has the truth value of the condition it came from.
 */
module SqlMeaning {
  import opened Wrappers
  import opened Conditions
  import opened SqlReader
  import opened SqlLexing
  import opened SqlParsing

  datatype Truth = True | False | Unknown

  function Of(b: bool): Truth {
    if b then True else False
  }

  function Not3(a: Truth): Truth {
    match a
    case True => False
    case False => True
    case Unknown => Unknown
  }

  function And3(a: Truth, b: Truth): Truth {
    if a == False || b == False then False
    else if a == True && b == True then True
    else Unknown
  }

  function Or3(a: Truth, b: Truth): Truth {
    if a == True || b == True then True
    else if a == False && b == False then False
    else Unknown
  }

  /**
   Everything the logic leaves to the database: values, rows, and the scope that a column name and a
   subquery are evaluated in. The results below hold for every choice.
   */
  datatype Database<!V, !R> = Database(
    column: (R, string) -> V,
    rows: (string, R) -> seq<R>,
    isNull: V -> bool,
    compare: (CompareOp, V, V) -> bool,
    like: (V, V) -> bool,
    now: V,
    plus: (V, V) -> V
  )

  function Compared<V, R>(db: Database<V, R>, op: CompareOp, x: V, y: V): Truth {
    if db.isNull(x) || db.isNull(y) then Unknown else Of(db.compare(op, x, y))
  }

  /** Whether x equals one of the values: an OR of comparisons. */
  function EqualsAny<V, R>(db: Database<V, R>, x: V, values: seq<V>): Truth {
    if values == [] then False else Or3(Compared(db, Eq, x, values[0]), EqualsAny(db, x, values[1..]))
  }

  function Meaning<V, R>(db: Database<V, R>, t: CondNode<V>, scope: R): Truth
    decreases t, 2
  {
    match t
    case Compare(op, field, value) => Compared(db, op, db.column(scope, field), value)
    case InList(negated, field, values) =>
      var found := EqualsAny(db, db.column(scope, field), values);
      if negated then Not3(found) else found
    case Between(field, low, high) =>
      var x := db.column(scope, field);
      And3(Compared(db, Gte, x, low), Compared(db, Lte, x, high))
    case Like(field, pattern) =>
      var x := db.column(scope, field);
      if db.isNull(x) || db.isNull(pattern) then Unknown else Of(db.like(x, pattern))
    case IsNull(negated, field) => Of(db.isNull(db.column(scope, field)) != negated)
    case ColumnComparison(left, op, right) => Compared(db, op, db.column(scope, left), db.column(scope, right))
    case ColumnExpr(field, op, _, param) =>
      Compared(db, op, db.column(scope, field), if param.Some? then db.plus(db.now, param.value) else db.now)
    case Exists(negated, q) => Of((Selected(db, q.conditions, db.rows(q.table, scope)) != []) != negated)
    case InSubquery(field, q) =>
      var found := Selected(db, q.conditions, db.rows(q.table, scope));
      EqualsAny(db, db.column(scope, field), seq(|found|, i requires 0 <= i < |found| => db.column(found[i], q.field)))
    case Group(c, cs) => Combined(db, c, cs, scope)
  }

  /** All members combined by AND or by OR. */
  function Combined<V, R>(db: Database<V, R>, c: Connective, cs: seq<CondNode<V>>, scope: R): Truth
    decreases cs, 0
  {
    if cs == [] then Of(c.And?)
    else if c.And? then And3(Meaning(db, cs[0], scope), Combined(db, c, cs[1..], scope))
    else Or3(Meaning(db, cs[0], scope), Combined(db, c, cs[1..], scope))
  }

  /** The rows on which every condition is true: neither false nor unknown. */
  function Selected<V, R>(db: Database<V, R>, cs: seq<CondNode<V>>, rows: seq<R>): seq<R>
    decreases cs, 1, rows
  {
    if rows == [] then []
    else (if Combined(db, And, cs, rows[0]) == True then [rows[0]] else []) + Selected(db, cs, rows[1..])
  }

  // ---------- the laws of the logic ----------

  ghost predicate SomeIs<V, R>(db: Database<V, R>, cs: seq<CondNode<V>>, scope: R, truth: Truth) {
    exists i :: 0 <= i < |cs| && Meaning(db, cs[i], scope) == truth
  }

  ghost predicate EachIs<V, R>(db: Database<V, R>, cs: seq<CondNode<V>>, scope: R, truth: Truth) {
    forall i :: 0 <= i < |cs| ==> Meaning(db, cs[i], scope) == truth
  }

  lemma FirstOrLater<V, R>(db: Database<V, R>, cs: seq<CondNode<V>>, scope: R, truth: Truth)
    requires cs != []
    ensures SomeIs(db, cs, scope, truth) <==> Meaning(db, cs[0], scope) == truth || SomeIs(db, cs[1..], scope, truth)
    ensures EachIs(db, cs, scope, truth) <==> Meaning(db, cs[0], scope) == truth && EachIs(db, cs[1..], scope, truth)
  {
    assert forall i :: 0 < i < |cs| ==> cs[i] == cs[1..][i - 1];
    assert forall i :: 0 <= i < |cs[1..]| ==> cs[1..][i] == cs[i + 1];
  }

  /** One false member makes an AND false, one true member an OR true; otherwise all must agree. */
  lemma {:induction false} GroupMeaning<V, R>(db: Database<V, R>, c: Connective, cs: seq<CondNode<V>>, scope: R)
    ensures var r, one, all := Meaning(db, Group(c, cs), scope), Of(!c.And?), Of(c.And?);
      (r == one <==> SomeIs(db, cs, scope, one)) && (r == all <==> EachIs(db, cs, scope, all))
  {
    if cs != [] {
      GroupMeaning(db, c, cs[1..], scope);
      FirstOrLater(db, cs, scope, True);
      FirstOrLater(db, cs, scope, False);
    }
  }

  /** The comparisons of a field with each of the values. */
  function Comparisons<V>(op: CompareOp, field: string, values: seq<V>): seq<CondNode<V>> {
    seq(|values|, i requires 0 <= i < |values| => Compare(op, field, values[i]))
  }

  lemma FirstComparison<V, R>(db: Database<V, R>, c: Connective, op: CompareOp, field: string, values: seq<V>, scope: R)
    requires values != []
    ensures var first := Compared(db, op, db.column(scope, field), values[0]);
      var others := Combined(db, c, Comparisons(op, field, values[1..]), scope);
      Combined(db, c, Comparisons(op, field, values), scope)
      == if c.And? then And3(first, others) else Or3(first, others)
  {
    var all := Comparisons(op, field, values);
    assert all[1..] == Comparisons(op, field, values[1..]);
    assert Meaning(db, all[0], scope) == Compared(db, op, db.column(scope, field), values[0]);
  }

  ghost predicate NeIsNotEq<V(!new), R>(db: Database<V, R>) {
    forall x: V, y: V :: db.compare(Ne, x, y) == !db.compare(Eq, x, y)
  }

  lemma OneIsTheOther<V(!new), R>(db: Database<V, R>, x: V, y: V)
    requires NeIsNotEq(db)
    ensures Compared(db, Ne, x, y) == Not3(Compared(db, Eq, x, y))
  {
  }

  /** IN is the OR of the equalities, and NOT IN the AND of the inequalities. */
  lemma {:induction false} InMeansComparisons<V(!new), R>(db: Database<V, R>, field: string, values: seq<V>, scope: R)
    requires NeIsNotEq(db)
    ensures Meaning(db, InList(false, field, values), scope)
         == Meaning(db, Group(Or, Comparisons(Eq, field, values)), scope)
    ensures Meaning(db, InList(true, field, values), scope)
         == Meaning(db, Group(And, Comparisons(Ne, field, values)), scope)
  {
    if values != [] {
      InMeansComparisons(db, field, values[1..], scope);
      FirstComparison(db, Or, Eq, field, values, scope);
      FirstComparison(db, And, Ne, field, values, scope);
      OneIsTheOther(db, db.column(scope, field), values[0]);
    }
  }

  /** BETWEEN is the AND of the two comparisons. */
  lemma BetweenMeansComparisons<V, R>(db: Database<V, R>, field: string, low: V, high: V, scope: R)
    ensures Meaning(db, Between(field, low, high), scope)
         == Meaning(db, Group(And, [Compare(Gte, field, low), Compare(Lte, field, high)]), scope)
  {
    FirstOfTwo(db, Compare(Gte, field, low), Compare(Lte, field, high), scope);
  }

  lemma FirstOfTwo<V, R>(db: Database<V, R>, a: CondNode<V>, b: CondNode<V>, scope: R)
    ensures Meaning(db, Group(And, [a, b]), scope) == And3(Meaning(db, a, scope), Meaning(db, b, scope))
  {
    AllOfMore(db, b, [], scope);
    AllOfMore(db, a, [b], scope);
    assert [b] + [] == [b] && [a] + [b] == [a, b];
  }

  lemma AllOfMore<V, R>(db: Database<V, R>, a: CondNode<V>, cs: seq<CondNode<V>>, scope: R)
    ensures Combined(db, And, [a] + cs, scope) == And3(Meaning(db, a, scope), Combined(db, And, cs, scope))
    ensures cs == [] ==> Combined(db, And, [a] + cs, scope) == Meaning(db, a, scope)
  {
    assert ([a] + cs)[0] == a && ([a] + cs)[1..] == cs;
  }

  lemma {:induction false} SelectedExactly<V, R>(db: Database<V, R>, cs: seq<CondNode<V>>, rows: seq<R>, row: R)
    ensures row in Selected(db, cs, rows) <==> row in rows && EachIs(db, cs, row, True)
  {
    if rows != [] {
      SelectedExactly(db, cs, rows[1..], row);
      GroupMeaning(db, And, cs, rows[0]);
    }
  }

  /** EXISTS is true if the conditions are all true on some row, and false otherwise. */
  lemma ExistsMeaning<V, R>(db: Database<V, R>, q: SubqueryNode<V>, scope: R)
    ensures var some := exists row :: row in db.rows(q.table, scope) && EachIs(db, q.conditions, row, True);
      && Meaning(db, Exists(false, q), scope) == Of(some) && Meaning(db, Exists(true, q), scope) == Of(!some)
  {
    var rows := db.rows(q.table, scope);
    var found := Selected(db, q.conditions, rows);
    if found != [] {
      SelectedExactly(db, q.conditions, rows, found[0]);
    }
    if exists row :: row in rows && EachIs(db, q.conditions, row, True) {
      var row :| row in rows && EachIs(db, q.conditions, row, True);
      SelectedExactly(db, q.conditions, rows, row);
    }
  }

  // ---------- removing groups of one member ----------

  lemma {:induction false} NormalizeKeepsMeaning<V, R>(db: Database<V, R>, t: CondNode<V>, scope: R)
    ensures Meaning(db, Normalize(t), scope) == Meaning(db, t, scope)
    decreases t, 2
  {
    match t
    case Exists(_, q) => NormalizeKeepsRows(db, q.conditions, db.rows(q.table, scope));
    case InSubquery(_, q) => NormalizeKeepsRows(db, q.conditions, db.rows(q.table, scope));
    case Group(c, cs) =>
      if |cs| == 1 {
        NormalizeKeepsMeaning(db, cs[0], scope);
        assert Combined(db, c, cs[1..], scope) == Of(c.And?);
      } else {
        NormalizeKeepsAll(db, c, cs, scope);
      }
    case _ =>
  }

  lemma {:induction false} NormalizeKeepsAll<V, R>(db: Database<V, R>, c: Connective, cs: seq<CondNode<V>>, scope: R)
    ensures Combined(db, c, NormalizeAll(cs), scope) == Combined(db, c, cs, scope)
    decreases cs, 0
  {
    if cs != [] {
      NormalizeKeepsMeaning(db, cs[0], scope);
      NormalizeKeepsAll(db, c, cs[1..], scope);
      assert NormalizeAll(cs)[1..] == NormalizeAll(cs[1..]);
    }
  }

  lemma {:induction false} NormalizeKeepsRows<V, R>(db: Database<V, R>, cs: seq<CondNode<V>>, rows: seq<R>)
    ensures Selected(db, NormalizeAll(cs), rows) == Selected(db, cs, rows)
    decreases cs, 1, rows
  {
    if rows != [] {
      NormalizeKeepsAll(db, And, cs, rows[0]);
      NormalizeKeepsRows(db, cs, rows[1..]);
    }
  }

  // ---------- the text means what the condition means ----------

  /** The truth value of a text with its parameters; none if it is not a condition. */
  function TextMeaning<V, R>(d: Dialect, offset: nat, sql: string, params: seq<V>, db: Database<V, R>,
                             scope: R): Option<Truth> {
    match Read(d, offset, sql, params)
    case None => None
    case Some(t) => Some(Meaning(db, t, scope))
  }

  lemma TextMeansCondition<V, R>(d: Dialect, t: CondNode<V>, offset: nat, db: Database<V, R>, scope: R)
    requires IsDialect(d) && Accepted(t) && Converted(d, t)
    ensures TextMeaning(d, offset, Sql(d, t, offset), Params(t), db, scope) == Some(Meaning(db, t, scope))
  {
    RoundTrip(d, t, offset);
    NormalizeKeepsMeaning(db, t, scope);
  }

  // ---------- values stay out of the text ----------

  /** The same condition with other values. */
  function Rebind<V, W>(t: CondNode<V>, f: V -> W): CondNode<W>
    decreases t, 1
  {
    match t
    case Compare(op, field, value) => Compare(op, field, f(value))
    case InList(negated, field, values) =>
      InList(negated, field, seq(|values|, i requires 0 <= i < |values| => f(values[i])))
    case Between(field, low, high) => Between(field, f(low), f(high))
    case Like(field, pattern) => Like(field, f(pattern))
    case IsNull(negated, field) => IsNull(negated, field)
    case ColumnComparison(left, op, right) => ColumnComparison(left, op, right)
    case ColumnExpr(field, op, fragment, param) =>
      ColumnExpr(field, op, fragment, if param.Some? then Some(f(param.value)) else None)
    case Exists(negated, q) => Exists(negated, SubqueryNode(q.table, q.field, RebindAll(q.conditions, f)))
    case InSubquery(field, q) => InSubquery(field, SubqueryNode(q.table, q.field, RebindAll(q.conditions, f)))
    case Group(c, cs) => Group(c, RebindAll(cs, f))
  }

  function RebindAll<V, W>(cs: seq<CondNode<V>>, f: V -> W): (r: seq<CondNode<W>>)
    ensures |r| == |cs|
    decreases cs, 0
  {
    if cs == [] then [] else [Rebind(cs[0], f)] + RebindAll(cs[1..], f)
  }

  /** No value can change the text: conditions that differ only in values render alike. */
  lemma {:induction false} TextHidesValues<V, W>(d: Dialect, t: CondNode<V>, f: V -> W, n: nat)
    requires Accepted(t)
    ensures Accepted(Rebind(t, f)) && Sql(d, Rebind(t, f), n) == Sql(d, t, n)
    ensures |Params(Rebind(t, f))| == |Params(t)|
    decreases t, 1
  {
    match t
    case Exists(_, q) => AllHideValues(d, q.conditions, f, And, n);
    case InSubquery(_, q) => AllHideValues(d, q.conditions, f, And, n);
    case Group(c, cs) =>
      AllHideValues(d, cs, f, c, n);
      if |cs| == 1 {
        SingleMember(cs);
        TextHidesValues(d, cs[0], f, n);
      }
    case _ =>
  }

  lemma {:induction false} AllHideValues<V, W>(d: Dialect, cs: seq<CondNode<V>>, f: V -> W, c: Connective, n: nat)
    requires AcceptedAll(cs)
    ensures AcceptedAll(RebindAll(cs, f)) && SqlAll(d, RebindAll(cs, f), c, n) == SqlAll(d, cs, c, n)
    ensures |ParamsAll(RebindAll(cs, f))| == |ParamsAll(cs)|
    decreases cs, 0
  {
    if cs != [] {
      TextHidesValues(d, cs[0], f, n);
      AllHideValues(d, cs[1..], f, c, After(n, cs[0]));
      assert RebindAll(cs, f)[1..] == RebindAll(cs[1..], f);
    }
  }
}
