/** Typing of relational queries: what is checked before a query runs, and that nothing but a count too large for the
    machine integer goes wrong after that. */
module QueryTypes {
  import opened Wrappers
  import opened RelationalAlgebra

  /** The column equivalences of every stored relation. */
  type Schema = map<RelationId, seq<EquivId>>

  /** Left input first, then right, then the operator's own columns. */
  function Typecheck(q: RelExpr, schema: Schema): Result<seq<EquivId>, QueryError> {
    match q
    case Scan(relation) => if relation in schema then Ok(schema[relation]) else Err(UnknownRelation)
    case FilterEqConst(input, column, _, _) =>
      var t :- Typecheck(input, schema);
      if column < |t| then Ok(t) else Err(ColumnOutOfBounds)
    case FilterOrderConst(input, column, _, _, _) =>
      var t :- Typecheck(input, schema);
      if column < |t| then Ok(t) else Err(ColumnOutOfBounds)
    case FilterEqColumns(input, left, right, _) =>
      var t :- Typecheck(input, schema);
      if left < |t| && right < |t| then Ok(t) else Err(ColumnOutOfBounds)
    case Project(input, columns) =>
      var t :- Typecheck(input, schema);
      if forall i | 0 <= i < |columns| :: columns[i] < |t|
      then Ok(seq(|columns|, i requires 0 <= i < |columns| && columns[i] < |t| => t[columns[i]])) else Err(ColumnOutOfBounds)
    case JoinEq(left, right, leftColumn, rightColumn, _) =>
      var l :- Typecheck(left, schema);
      var r :- Typecheck(right, schema);
      if leftColumn < |l| && rightColumn < |r| then Ok(l + r) else Err(ColumnOutOfBounds)
    case Difference(left, right) =>
      var l :- Typecheck(left, schema);
      var r :- Typecheck(right, schema);
      if l == r then Ok(l) else Err(TypeMismatch)
    case Union(left, right) =>
      var l :- Typecheck(left, schema);
      var r :- Typecheck(right, schema);
      if l == r then Ok(l) else Err(TypeMismatch)
    case AntiJoin(left, right, leftColumn, rightColumn, _) =>
      var l :- Typecheck(left, schema);
      var r :- Typecheck(right, schema);
      if leftColumn < |l| && rightColumn < |r| then Ok(l) else Err(ColumnOutOfBounds)
    case Distinct(input, equivs) =>
      var t :- Typecheck(input, schema);
      if |equivs| == |t| then Ok(equivs) else Err(EquivalenceArityMismatch)
    case GroupCount(input, column, equiv, resultEquiv) =>
      var t :- Typecheck(input, schema);
      if column < |t| then Ok([equiv, resultEquiv]) else Err(ColumnOutOfBounds)
  }

  /** A query is checked against the schema before any of it runs. */
  function Evaluate(q: RelExpr, schema: Schema, db: Database, g: Gamma): Result<Table, QueryError> {
    var _ :- Typecheck(q, schema);
    Eval(q, db, g)
  }

  ghost predicate Describes(schema: Schema, db: Database) {
    schema.Keys == db.Keys && forall r | r in db :: schema[r] == db[r].equivs
  }

  /** The query counts groups somewhere. */
  predicate Counts(q: RelExpr) {
    match q
    case Scan(_) => false
    case FilterEqConst(input, _, _, _) => Counts(input)
    case FilterOrderConst(input, _, _, _, _) => Counts(input)
    case FilterEqColumns(input, _, _, _) => Counts(input)
    case Project(input, _) => Counts(input)
    case JoinEq(left, right, _, _, _) => Counts(left) || Counts(right)
    case Difference(left, right) => Counts(left) || Counts(right)
    case Union(left, right) => Counts(left) || Counts(right)
    case AntiJoin(left, right, _, _, _) => Counts(left) || Counts(right)
    case Distinct(input, _) => Counts(input)
    case GroupCount(_, _, _, _) => true
  }

  /** A run bears out the check, or a count overflowed first. */
  ghost predicate Agrees(checked: Result<seq<EquivId>, QueryError>, run: Result<Table, QueryError>, counts: bool) {
    || (counts && run == Err(AggregateOverflow))
    || (checked.Ok? && run.Ok? && run.value.equivs == checked.value)
    || (checked.Err? && run == Err(checked.error))
  }

  lemma {:induction false} TypecheckAgrees(q: RelExpr, schema: Schema, db: Database, g: Gamma)
    requires Describes(schema, db)
    ensures Agrees(Typecheck(q, schema), Eval(q, db, g), Counts(q))
  {
    hide Agrees;
    match q
    case Scan(_) => ScanAgrees(q.relation, schema, db, g);
    case FilterEqConst(input, _, _, _) => TypecheckAgrees(input, schema, db, g); OneInput(q, schema, db, g);
    case FilterOrderConst(input, _, _, _, _) => TypecheckAgrees(input, schema, db, g); OneInput(q, schema, db, g);
    case FilterEqColumns(input, _, _, _) => TypecheckAgrees(input, schema, db, g); OneInput(q, schema, db, g);
    case Project(input, _) => TypecheckAgrees(input, schema, db, g); OneInput(q, schema, db, g);
    case JoinEq(left, right, _, _, _) =>
      TypecheckAgrees(left, schema, db, g);
      TypecheckAgrees(right, schema, db, g);
      TwoInputs(q, schema, db, g);
    case Difference(left, right) =>
      TypecheckAgrees(left, schema, db, g);
      TypecheckAgrees(right, schema, db, g);
      TwoInputs(q, schema, db, g);
    case Union(left, right) =>
      TypecheckAgrees(left, schema, db, g);
      TypecheckAgrees(right, schema, db, g);
      TwoInputs(q, schema, db, g);
    case AntiJoin(left, right, _, _, _) =>
      TypecheckAgrees(left, schema, db, g);
      TypecheckAgrees(right, schema, db, g);
      TwoInputs(q, schema, db, g);
    case Distinct(input, _) => TypecheckAgrees(input, schema, db, g); OneInput(q, schema, db, g);
    case GroupCount(input, _, _, _) => TypecheckAgrees(input, schema, db, g); OneInput(q, schema, db, g);
  }

  lemma ScanAgrees(relation: RelationId, schema: Schema, db: Database, g: Gamma)
    requires Describes(schema, db)
    ensures Agrees(Typecheck(Scan(relation), schema), Eval(Scan(relation), db, g), false)
  {
  }

  lemma OneInput(q: RelExpr, schema: Schema, db: Database, g: Gamma)
    requires q.FilterEqConst? || q.FilterOrderConst? || q.FilterEqColumns? || q.Project? || q.Distinct? || q.GroupCount?
    requires Agrees(Typecheck(q.input, schema), Eval(q.input, db, g), Counts(q.input))
    ensures Agrees(Typecheck(q, schema), Eval(q, db, g), Counts(q))
  {
    hide FilterRows, DistinctRows, GroupRows, ProjectRows;
  }

  lemma TwoInputs(q: RelExpr, schema: Schema, db: Database, g: Gamma)
    requires q.JoinEq? || q.Difference? || q.Union? || q.AntiJoin?
    requires Agrees(Typecheck(q.left, schema), Eval(q.left, db, g), Counts(q.left))
    requires Agrees(Typecheck(q.right, schema), Eval(q.right, db, g), Counts(q.right))
    ensures Agrees(Typecheck(q, schema), Eval(q, db, g), Counts(q))
  {
    hide FilterRows, JoinRows, DistinctRows;
  }

  // ----- Every result is a set relation -----

  /** No two positions have the same key. */
  ghost predicate Pairwise(g: Gamma, equivs: seq<EquivId>, rows: seq<Row>) {
    forall i, j | 0 <= i < j < |rows| :: RowKey(g, equivs, rows[i]) != RowKey(g, equivs, rows[j])
  }

  lemma {:induction false} DistinctIsPairwise(g: Gamma, equivs: seq<EquivId>, rows: seq<Row>)
    ensures KeyDistinct(g, equivs, rows) <==> Pairwise(g, equivs, rows)
  {
    if rows != [] {
      hide RowKey;
      var n := |rows| - 1;
      DistinctIsPairwise(g, equivs, rows[..n]);
      if FreshKey(g, equivs, rows[..n], rows[n]) {
        assert forall i | 0 <= i < n :: rows[i] in rows[..n];
      }
    }
  }

  lemma JoinedKey(g: Gamma, left: seq<EquivId>, right: seq<EquivId>, a: Row, b: Row)
    requires |a| == |left| && |b| == |right|
    ensures RowKey(g, left + right, a + b) == RowKey(g, left, a) + RowKey(g, right, b)
  {
  }

  lemma KeysDiffer(g: Gamma, left: seq<EquivId>, right: seq<EquivId>, a: Row, b: Row, c: Row, d: Row)
    requires |a| == |c| == |left| && |b| == |d| == |right|
    requires RowKey(g, left + right, a + b) == RowKey(g, left + right, c + d)
    ensures RowKey(g, left, a) == RowKey(g, left, c) && RowKey(g, right, b) == RowKey(g, right, d)
  {
    JoinedKey(g, left, right, a, b);
    JoinedKey(g, left, right, c, d);
    var ka, kb, kc, kd := RowKey(g, left, a), RowKey(g, right, b), RowKey(g, left, c), RowKey(g, right, d);
    hide RowKey;
    assert (ka + kb)[..|ka|] == ka && (kc + kd)[..|kc|] == kc;
    assert (ka + kb)[|ka|..] == kb && (kc + kd)[|kc|..] == kd;
  }

  ghost predicate Wide(rows: seq<Row>, width: nat) {
    forall row | row in rows :: |row| == width
  }

  lemma {:induction false} AppendDistinct(g: Gamma, equivs: seq<EquivId>, x: seq<Row>, y: seq<Row>)
    requires KeyDistinct(g, equivs, x) && KeyDistinct(g, equivs, y) && forall row | row in y :: FreshKey(g, equivs, x, row)
    ensures KeyDistinct(g, equivs, x + y)
  {
    if y == [] {
      assert x + y == x;
    } else {
      hide RowKey;
      var n := |y| - 1;
      assert y == y[..n] + [y[n]];
      AppendDistinct(g, equivs, x, y[..n]);
      assert (x + y)[..|x| + n] == x + y[..n];
      assert y[n] in y && FreshKey(g, equivs, x, y[n]);
    }
  }

  lemma {:induction false} JoinOneDistinct(g: Gamma, equiv: EquivId, left: seq<EquivId>, a: Row, ca: nat,
                                           right: seq<EquivId>, rows: seq<Row>, cb: nat)
    requires |a| == |left| && Wide(rows, |right|) && KeyDistinct(g, right, rows)
    ensures KeyDistinct(g, left + right, JoinOne(g, equiv, a, ca, rows, cb))
  {
    if rows != [] {
      hide RowKey, KeyMatch;
      var init, last := rows[..|rows| - 1], rows[|rows| - 1];
      assert rows == init + [last];
      JoinOneDistinct(g, equiv, left, a, ca, right, init, cb);
      var before, all := JoinOne(g, equiv, a, ca, init, cb), JoinOne(g, equiv, a, ca, rows, cb);
      JoinOneSpec(g, equiv, a, ca, init, cb);
      forall x | x in before ensures RowKey(g, left + right, x) != RowKey(g, left + right, a + last) {
        var b :| b in init && KeyMatch(g, equiv, a, ca, b, cb) && x == a + b;
        if RowKey(g, left + right, x) == RowKey(g, left + right, a + last) { KeysDiffer(g, left, right, a, b, a, last); }
      }
      if all != before { assert all[..|all| - 1] == before; }
    }
  }

  lemma {:induction false} JoinDistinct(g: Gamma, equiv: EquivId, left: seq<EquivId>, rows: seq<Row>, ca: nat,
                                        right: seq<EquivId>, others: seq<Row>, cb: nat)
    requires Wide(rows, |left|) && KeyDistinct(g, left, rows) && Wide(others, |right|) && KeyDistinct(g, right, others)
    ensures KeyDistinct(g, left + right, JoinRows(g, equiv, rows, ca, others, cb))
  {
    if rows != [] {
      hide RowKey, KeyMatch, JoinOne;
      var init, last := rows[..|rows| - 1], rows[|rows| - 1];
      assert rows == init + [last];
      JoinDistinct(g, equiv, left, init, ca, right, others, cb);
      JoinOneDistinct(g, equiv, left, last, ca, right, others, cb);
      var before, more := JoinRows(g, equiv, init, ca, others, cb), JoinOne(g, equiv, last, ca, others, cb);
      JoinRowsSpec(g, equiv, init, ca, others, cb);
      JoinOneSpec(g, equiv, last, ca, others, cb);
      forall x, y | x in before && y in more ensures RowKey(g, left + right, x) != RowKey(g, left + right, y) {
        var a, b :| a in init && b in others && Joined(g, equiv, x, a, ca, b, cb);
        var d :| d in others && KeyMatch(g, equiv, last, ca, d, cb) && y == last + d;
        if RowKey(g, left + right, x) == RowKey(g, left + right, y) { KeysDiffer(g, left, right, a, b, last, d); }
      }
      AppendDistinct(g, left + right, before, more);
    }
  }

  lemma JoinOk(g: Gamma, l: Table, r: Table, leftColumn: nat, rightColumn: nat, equiv: EquivId)
    requires TableOk(g, l) && TableOk(g, r)
    ensures TableOk(g, JoinTable(g, l, r, leftColumn, rightColumn, equiv))
  {
    hide JoinRows, KeyDistinct;
    JoinDistinct(g, equiv, l.equivs, l.rows, leftColumn, r.equivs, r.rows, rightColumn);
    JoinRowsSpec(g, equiv, l.rows, leftColumn, r.rows, rightColumn);
  }

  lemma FilterOk(g: Gamma, test: RowTest, t: Table)
    requires TableOk(g, t)
    ensures TableOk(g, FilterTable(g, test, t))
  {
    hide FilterRows, KeyDistinct, Keeps;
    FilterRowsSpec(g, t.equivs, test, t.rows);
  }

  lemma DistinctOk(g: Gamma, equivs: seq<EquivId>, rows: seq<Row>)
    requires Wide(rows, |equivs|)
    ensures TableOk(g, Table(DistinctRows(g, equivs, rows), equivs))
  {
    hide DistinctRows, KeyDistinct;
    DistinctRowsSpec(g, equivs, rows);
  }

  lemma GroupOk(g: Gamma, t: Table, column: nat, equiv: EquivId, resultEquiv: EquivId)
    ensures TableOk(g, GroupTable(g, t, column, equiv, resultEquiv))
  {
    var keys := DistinctRows(g, [equiv], ProjectRows(t.rows, [column]));
    var rows := GroupRows(g, equiv, column, t.rows);
    DistinctRowsSpec(g, [equiv], ProjectRows(t.rows, [column]));
    DistinctIsPairwise(g, [equiv], keys);
    hide DistinctRows, KeyDistinct, CountKey, Key;
    assert forall row | row in ProjectRows(t.rows, [column]) :: |row| == 1;
    assert forall i | 0 <= i < |keys| :: keys[i] in keys && |keys[i]| == 1;
    assert [equiv] + [resultEquiv] == [equiv, resultEquiv];
    forall i, j | 0 <= i < j < |rows| ensures RowKey(g, [equiv, resultEquiv], rows[i]) != RowKey(g, [equiv, resultEquiv], rows[j]) {
      assert rows[i] == keys[i] + [rows[i][1]] && rows[j] == keys[j] + [rows[j][1]];
      if RowKey(g, [equiv, resultEquiv], rows[i]) == RowKey(g, [equiv, resultEquiv], rows[j]) {
        KeysDiffer(g, [equiv], [resultEquiv], keys[i], [rows[i][1]], keys[j], [rows[j][1]]);
      }
    }
    DistinctIsPairwise(g, [equiv, resultEquiv], rows);
  }

  /** Whatever query runs on set relations, its result is a set relation: every row has one value for each column, and no
      two rows agree in all of them. */
  lemma {:induction false} EvalKeepsSets(q: RelExpr, db: Database, g: Gamma)
    requires forall r | r in db :: TableOk(g, db[r])
    ensures Eval(q, db, g).Ok? ==> TableOk(g, Eval(q, db, g).value)
  {
    hide TableOk, FilterTable, JoinTable, GroupTable;
    match q
    case Scan(_) =>
    case FilterEqConst(input, column, value, equiv) =>
      EvalKeepsSets(input, db, g);
      if Eval(q, db, g).Ok? { FilterOk(g, KeyIs(column, equiv, value), Eval(input, db, g).value); }
    case FilterOrderConst(input, column, value, ordering, comparison) =>
      EvalKeepsSets(input, db, g);
      if Eval(q, db, g).Ok? { FilterOk(g, Ordered(column, ordering, value, comparison), Eval(input, db, g).value); }
    case FilterEqColumns(input, left, right, equiv) =>
      EvalKeepsSets(input, db, g);
      if Eval(q, db, g).Ok? { FilterOk(g, SameKeys(left, right, equiv), Eval(input, db, g).value); }
    case Project(input, columns) =>
      if Eval(q, db, g).Ok? {
        var t := Eval(input, db, g).value;
        DistinctOk(g, ProjectEquivs(t.equivs, columns), ProjectRows(t.rows, columns));
      }
    case JoinEq(left, right, leftColumn, rightColumn, equiv) =>
      EvalKeepsSets(left, db, g);
      EvalKeepsSets(right, db, g);
      if Eval(q, db, g).Ok? { JoinOk(g, Eval(left, db, g).value, Eval(right, db, g).value, leftColumn, rightColumn, equiv); }
    case Difference(left, right) =>
      EvalKeepsSets(left, db, g);
      if Eval(q, db, g).Ok? {
        var l, r := Eval(left, db, g).value, Eval(right, db, g).value;
        FilterOk(g, NotAmong(l.equivs, r.rows), l);
      }
    case Union(left, right) =>
      EvalKeepsSets(left, db, g);
      EvalKeepsSets(right, db, g);
      if Eval(q, db, g).Ok? { UnionOk(g, Eval(left, db, g).value, Eval(right, db, g).value); }
    case AntiJoin(left, right, leftColumn, rightColumn, equiv) =>
      EvalKeepsSets(left, db, g);
      if Eval(q, db, g).Ok? { FilterOk(g, NoMatch(leftColumn, Eval(right, db, g).value.rows, rightColumn, equiv), Eval(left, db, g).value); }
    case Distinct(input, equivs) =>
      EvalKeepsSets(input, db, g);
      if Eval(q, db, g).Ok? { RegroupOk(g, Eval(input, db, g).value, equivs); }
    case GroupCount(input, column, equiv, resultEquiv) =>
      if Eval(q, db, g).Ok? { GroupOk(g, Eval(input, db, g).value, column, equiv, resultEquiv); }
  }

  lemma UnionOk(g: Gamma, l: Table, r: Table)
    requires TableOk(g, l) && TableOk(g, r) && l.equivs == r.equivs
    ensures TableOk(g, UnionTable(g, l, r))
  {
    hide DistinctRows, KeyDistinct;
    DistinctOk(g, l.equivs, l.rows + r.rows);
  }

  lemma RegroupOk(g: Gamma, t: Table, equivs: seq<EquivId>)
    requires TableOk(g, t) && |equivs| == |t.equivs|
    ensures TableOk(g, DistinctTable(g, t, equivs))
  {
    hide DistinctRows, KeyDistinct;
    DistinctOk(g, equivs, t.rows);
  }

  /** A query fails with any other error than a count too large exactly when its check fails with it; that error needs a
      count in the query. What an accepted query returns is a set relation of the type it was given. */
  lemma EvaluateSound(q: RelExpr, schema: Schema, db: Database, g: Gamma)
    requires Describes(schema, db) && forall r | r in db :: TableOk(g, db[r])
    ensures forall e | e != AggregateOverflow :: Evaluate(q, schema, db, g) == Err(e) <==> Typecheck(q, schema) == Err(e)
    ensures Evaluate(q, schema, db, g) == Err(AggregateOverflow) ==> Typecheck(q, schema).Ok? && Counts(q)
    ensures Evaluate(q, schema, db, g).Ok? ==>
              && Typecheck(q, schema) == Ok(Evaluate(q, schema, db, g).value.equivs)
              && TableOk(g, Evaluate(q, schema, db, g).value)
  {
    hide Eval, Typecheck, TableOk, Counts;
    TypecheckAgrees(q, schema, db, g);
    EvalKeepsSets(q, db, g);
    NeverOverflows(q, schema);
  }

  /** Counts are not looked at before the query runs. */
  lemma {:induction false} NeverOverflows(q: RelExpr, schema: Schema)
    ensures Typecheck(q, schema) != Err(AggregateOverflow)
  {
    match q
    case Scan(_) =>
    case FilterEqConst(input, _, _, _) => NeverOverflows(input, schema);
    case FilterOrderConst(input, _, _, _, _) => NeverOverflows(input, schema);
    case FilterEqColumns(input, _, _, _) => NeverOverflows(input, schema);
    case Project(input, _) => NeverOverflows(input, schema);
    case JoinEq(left, right, _, _, _) => NeverOverflows(left, schema); NeverOverflows(right, schema);
    case Difference(left, right) => NeverOverflows(left, schema); NeverOverflows(right, schema);
    case Union(left, right) => NeverOverflows(left, schema); NeverOverflows(right, schema);
    case AntiJoin(left, right, _, _, _) => NeverOverflows(left, schema); NeverOverflows(right, schema);
    case Distinct(input, _) => NeverOverflows(input, schema);
    case GroupCount(input, _, _, _) => NeverOverflows(input, schema);
  }
}
