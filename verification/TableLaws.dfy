/** What the rows of each table operator are, when its left input is a set relation. */
module TableLaws {
  import opened Wrappers
  import opened RelationalAlgebra
  import opened PredicateCompiler

  /** `u` is a set relation over the columns of `t`. */
  ghost predicate SameShape(g: Gamma, u: Table, t: Table) {
    u.equivs == t.equivs && TableOk(g, u)
  }

  lemma FilterTableSpec(g: Gamma, test: RowTest, t: Table)
    requires TableOk(g, t)
    ensures SameShape(g, FilterTable(g, test, t), t)
    ensures forall r :: r in FilterTable(g, test, t).rows <==> r in t.rows && Keeps(g, test, r)
  {
    FilterRowsSpec(g, t.equivs, test, t.rows);
  }

  /** Removing from a set relation some of its own rows removes exactly those. */
  lemma DifferenceSpec(g: Gamma, l: Table, r: Table)
    requires TableOk(g, l) && r.equivs == l.equivs
    requires forall x | x in r.rows :: x in l.rows
    ensures var d := FilterTable(g, NotAmong(l.equivs, r.rows), l);
            SameShape(g, d, l) && forall x :: x in d.rows <==> x in l.rows && x !in r.rows
  {
    var test := NotAmong(l.equivs, r.rows);
    FilterTableSpec(g, test, l);
    forall x | x in l.rows ensures Keeps(g, test, x) <==> x !in r.rows {
      if b :| b in r.rows && RowKey(g, l.equivs, b) == RowKey(g, l.equivs, x) {
        SameKeySameRow(g, l.equivs, l.rows, b, x);
      }
    }
  }

  /** The union of two parts of one set relation holds exactly the rows of both parts. */
  lemma UnionSpec(g: Gamma, l: Table, r: Table, t: Table)
    requires l.equivs == r.equivs == t.equivs && TableOk(g, t)
    requires forall x | x in l.rows || x in r.rows :: x in t.rows
    ensures SameShape(g, UnionTable(g, l, r), t)
    ensures forall x :: x in UnionTable(g, l, r).rows <==> x in l.rows || x in r.rows
  {
    DistinctWithinSet(g, t.equivs, l.rows + r.rows, t.rows);
  }

  /** The left rows with a match, as the projection of the joined rows yields them. */
  lemma JoinedLeftRows(g: Gamma, s: Table, t: Table, left: nat, right: nat, equiv: EquivId)
    requires TableOk(g, s)
    ensures var projected := ProjectRows(JoinTable(g, s, t, left, right, equiv).rows, Columns(|s.equivs|));
            forall r :: r in projected
                        <==> r in s.rows && exists b :: b in t.rows && KeyMatch(g, equiv, r, left, b, right)
  {
    var width := |s.equivs|;
    var joined := JoinRows(g, equiv, s.rows, left, t.rows, right);
    JoinRowsSpec(g, equiv, s.rows, left, t.rows, right);
    ProjectRowsSpec(joined, Columns(width));
    var projected := ProjectRows(joined, Columns(width));
    forall r | r in projected ensures r in s.rows && exists b :: b in t.rows && KeyMatch(g, equiv, r, left, b, right) {
      var x :| x in joined && r == ProjectRow(x, Columns(width));
      var a, b :| a in s.rows && b in t.rows && Joined(g, equiv, x, a, left, b, right);
      assert r == a;
    }
    forall r, b | r in s.rows && b in t.rows && KeyMatch(g, equiv, r, left, b, right) ensures r in projected {
      assert Joined(g, equiv, r + b, r, left, b, right);
      assert r + b in joined;
      assert ProjectRow(r + b, Columns(width)) == r;
    }
  }

  /** Join, project back to the left columns and deduplicate. */
  function SemiJoinTable(g: Gamma, s: Table, t: Table, left: nat, right: nat, equiv: EquivId): Table {
    DistinctTable(g, ProjectTable(g, JoinTable(g, s, t, left, right, equiv), Columns(|s.equivs|)), s.equivs)
  }

  lemma SemiJoinSpec(g: Gamma, s: Table, t: Table, left: nat, right: nat, equiv: EquivId)
    requires TableOk(g, s)
    ensures SameShape(g, SemiJoinTable(g, s, t, left, right, equiv), s)
    ensures forall r :: r in SemiJoinTable(g, s, t, left, right, equiv).rows
                        <==> r in s.rows && exists b :: b in t.rows && KeyMatch(g, equiv, r, left, b, right)
  {
    var joined := JoinTable(g, s, t, left, right, equiv);
    var projected := ProjectRows(joined.rows, Columns(|s.equivs|));
    JoinedLeftRows(g, s, t, left, right, equiv);
    assert ProjectEquivs(joined.equivs, Columns(|s.equivs|)) == s.equivs;
    DistinctWithinSet(g, s.equivs, projected, s.rows);
    DistinctWithinSet(g, s.equivs, DistinctRows(g, s.equivs, projected), s.rows);
  }

  lemma SemiJoinEval(g: Gamma, db: Database, source: RelExpr, selected: RelExpr, s: Table, t: Table,
                     left: nat, right: nat, equiv: EquivId)
    requires Eval(source, db, g) == Ok(s) && left < |s.equivs|
    requires Eval(selected, db, g) == Ok(t) && right < |t.equivs|
    ensures Eval(SemiJoin(source, selected, left, right, equiv, |s.equivs|, s.equivs), db, g)
            == Ok(SemiJoinTable(g, s, t, left, right, equiv))
  {
    var join := JoinEq(source, selected, left, right, equiv);
    assert Eval(join, db, g) == Ok(JoinTable(g, s, t, left, right, equiv));
    assert Eval(Project(join, Columns(|s.equivs|)), db, g)
        == Ok(ProjectTable(g, JoinTable(g, s, t, left, right, equiv), Columns(|s.equivs|)));
  }

  lemma AntiJoinEval(g: Gamma, db: Database, source: RelExpr, blocker: RelExpr, s: Table, t: Table,
                     left: nat, right: nat, equiv: EquivId)
    requires Eval(source, db, g) == Ok(s) && left < |s.equivs|
    requires Eval(blocker, db, g) == Ok(t) && right < |t.equivs|
    ensures Eval(AntiJoin(source, blocker, left, right, equiv), db, g)
            == Ok(FilterTable(g, NoMatch(left, t.rows, right, equiv), s))
  {
  }

  lemma DifferenceEval(g: Gamma, db: Database, source: RelExpr, removed: RelExpr, s: Table, t: Table)
    requires Eval(source, db, g) == Ok(s) && Eval(removed, db, g) == Ok(t) && s.equivs == t.equivs
    ensures Eval(Difference(source, removed), db, g) == Ok(FilterTable(g, NotAmong(s.equivs, t.rows), s))
  {
  }

  lemma FilterOrderEval(g: Gamma, db: Database, source: RelExpr, s: Table, column: nat, value: Value, ordering: OrderId,
                        comparison: Comparison)
    requires Eval(source, db, g) == Ok(s) && column < |s.equivs|
    ensures Eval(FilterOrderConst(source, column, value, ordering, comparison), db, g)
            == Ok(FilterTable(g, Ordered(column, ordering, value, comparison), s))
  {
  }

  lemma FilterEqEval(g: Gamma, db: Database, source: RelExpr, s: Table, column: nat, value: Value, equiv: EquivId)
    requires Eval(source, db, g) == Ok(s) && column < |s.equivs|
    ensures Eval(FilterEqConst(source, column, value, equiv), db, g) == Ok(FilterTable(g, KeyIs(column, equiv, value), s))
  {
  }

  lemma FilterColumnsEval(g: Gamma, db: Database, source: RelExpr, s: Table, left: nat, right: nat, equiv: EquivId)
    requires Eval(source, db, g) == Ok(s) && left < |s.equivs| && right < |s.equivs|
    ensures Eval(FilterEqColumns(source, left, right, equiv), db, g) == Ok(FilterTable(g, SameKeys(left, right, equiv), s))
  {
  }

  lemma ScanEval(relation: RelationId, db: Database, g: Gamma)
    requires relation in db
    ensures Eval(Scan(relation), db, g) == Ok(db[relation])
  {
  }

  lemma JoinFirstColumnEval(g: Gamma, db: Database, source: RelExpr, selected: RelExpr, s: Table, t: Table,
                            left: nat, right: nat, equiv: EquivId)
    requires Eval(source, db, g) == Ok(s) && left < |s.equivs|
    requires Eval(selected, db, g) == Ok(t) && right < |t.equivs|
    ensures Eval(Project(JoinEq(source, selected, left, right, equiv), [0]), db, g)
            == Ok(ProjectTable(g, JoinTable(g, s, t, left, right, equiv), [0]))
  {
    assert Eval(JoinEq(source, selected, left, right, equiv), db, g) == Ok(JoinTable(g, s, t, left, right, equiv));
  }
}
