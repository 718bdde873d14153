/** A lowered predicate keeps exactly the input rows on which the predicate holds. */
module PredicateCorrectness {
  import opened Wrappers
  import opened RelationalAlgebra
  import opened PredicateCompiler
  import opened PredicateAcceptance
  import opened TableLaws

  // ----- To-many counts -----

  predicate Carries(g: Gamma, equiv: EquivId, column: nat, key: Value, row: Row) {
    column < |row| && Key(g, equiv, row[column]) == key
  }

  /** The positions of the rows whose `column` has the given canonical key. */
  function Holding(g: Gamma, equiv: EquivId, column: nat, key: Value, rows: seq<Row>): set<int> {
    set i | 0 <= i < |rows| && Carries(g, equiv, column, key, rows[i])
  }

  lemma HoldingOneMore(g: Gamma, equiv: EquivId, column: nat, key: Value, rows: seq<Row>, n: nat)
    requires |rows| == n + 1
    ensures |Holding(g, equiv, column, key, rows)|
         == |Holding(g, equiv, column, key, rows[..n])| + if Carries(g, equiv, column, key, rows[n]) then 1 else 0
  {
    hide Carries;
    var all, most := Holding(g, equiv, column, key, rows), Holding(g, equiv, column, key, rows[..n]);
    assert n !in most && forall i | 0 <= i < n :: rows[..n][i] == rows[i];
    if Carries(g, equiv, column, key, rows[n]) { assert all == most + {n}; } else { assert all == most; }
  }

  /** Counting counts every row of the class. */
  lemma {:induction false} CountKeyIs(g: Gamma, equiv: EquivId, column: nat, key: Value, rows: seq<Row>)
    ensures CountKey(g, equiv, column, key, rows) == |Holding(g, equiv, column, key, rows)|
  {
    if rows == [] {
      assert Holding(g, equiv, column, key, rows) == {};
    } else {
      hide Holding;
      var n := |rows| - 1;
      CountKeyIs(g, equiv, column, key, rows[..n]);
      HoldingOneMore(g, equiv, column, key, rows, n);
    }
  }

  lemma {:induction false} CountKeySpec(g: Gamma, equiv: EquivId, column: nat, key: Value, rows: seq<Row>)
    ensures CountKey(g, equiv, column, key, rows) <= |rows|
    ensures CountKey(g, equiv, column, key, rows) > 0
            <==> exists r :: r in rows && column < |r| && Key(g, equiv, r[column]) == key
  {
    if rows != [] {
      assert rows == rows[..|rows| - 1] + [rows[|rows| - 1]];
      CountKeySpec(g, equiv, column, key, rows[..|rows| - 1]);
    }
  }

  predicate Counted(x: Row) {
    |x| == 2 && x[1].I64?
  }

  /** `x` is the group row of some non-empty group: its key value and its true size. */
  ghost predicate GroupRow(g: Gamma, equiv: EquivId, rows: seq<Row>, x: Row) {
    && |x| == 2
    && x[1] == I64(|Holding(g, equiv, 0, Key(g, equiv, x[0]), rows)|)
    && Holding(g, equiv, 0, Key(g, equiv, x[0]), rows) != {}
  }

  lemma GroupRowAt(g: Gamma, equiv: EquivId, rows: seq<Row>, i: nat)
    requires forall r | r in rows :: |r| == 2
    requires i < |GroupRows(g, equiv, 0, rows)|
    ensures GroupRow(g, equiv, rows, GroupRows(g, equiv, 0, rows)[i])
    ensures [GroupRows(g, equiv, 0, rows)[i][0]] == DistinctRows(g, [equiv], ProjectRows(rows, [0]))[i]
  {
    var projected := ProjectRows(rows, [0]);
    var keys := DistinctRows(g, [equiv], projected);
    ProjectRowsSpec(rows, [0]);
    DistinctRowsSpec(g, [equiv], projected);
    assert keys[i] in keys && keys[i] in projected;
    var r :| r in rows && keys[i] == ProjectRow(r, [0]);
    CountKeySpec(g, equiv, 0, Key(g, equiv, r[0]), rows);
    CountKeyIs(g, equiv, 0, Key(g, equiv, r[0]), rows);
  }

  /** Extending every row of a set relation by one value keeps the rows distinct. */
  lemma {:induction false} ExtendedDistinct(g: Gamma, equivs: seq<EquivId>, extra: EquivId, rows: seq<Row>, longer: seq<Row>)
    requires KeyDistinct(g, equivs, rows) && |longer| == |rows|
    requires forall i | 0 <= i < |rows| :: |rows[i]| == |equivs| && |longer[i]| == |equivs| + 1 && longer[i][..|equivs|] == rows[i]
    ensures KeyDistinct(g, equivs + [extra], longer)
  {
    if rows != [] {
      var n := |rows| - 1;
      ExtendedDistinct(g, equivs, extra, rows[..n], longer[..n]);
      forall r | r in longer[..n] ensures RowKey(g, equivs + [extra], r) != RowKey(g, equivs + [extra], longer[n]) {
        var i :| 0 <= i < n && longer[i] == r;
        assert rows[i] in rows[..n];
        assert RowKey(g, equivs + [extra], r)[..|equivs|] == RowKey(g, equivs, rows[i]);
        assert RowKey(g, equivs + [extra], longer[n])[..|equivs|] == RowKey(g, equivs, rows[n]);
      }
    }
  }

  lemma GroupRowsDistinct(g: Gamma, equiv: EquivId, rows: seq<Row>)
    requires forall r | r in rows :: |r| == 2
    ensures KeyDistinct(g, [equiv, COUNT_EQUIVALENCE], GroupRows(g, equiv, 0, rows))
  {
    var keys := DistinctRows(g, [equiv], ProjectRows(rows, [0]));
    var groups := GroupRows(g, equiv, 0, rows);
    DistinctRowsSpec(g, [equiv], ProjectRows(rows, [0]));
    forall i | 0 <= i < |keys| ensures |keys[i]| == 1 && |groups[i]| == 2 && groups[i][..1] == keys[i] {
      GroupRowAt(g, equiv, rows, i);
    }
    ExtendedDistinct(g, [equiv], COUNT_EQUIVALENCE, keys, groups);
    assert [equiv] + [COUNT_EQUIVALENCE] == [equiv, COUNT_EQUIVALENCE];
  }

  lemma GroupOfEdge(g: Gamma, equiv: EquivId, rows: seq<Row>, e: Row) returns (x: Row)
    requires forall r | r in rows :: |r| == 2
    requires e in rows
    ensures x in GroupRows(g, equiv, 0, rows) && KeyMatch(g, equiv, e, 0, x, 0)
  {
    var projected := ProjectRows(rows, [0]);
    var keys := DistinctRows(g, [equiv], projected);
    ProjectRowsSpec(rows, [0]);
    var k := ProjectRow(e, [0]);
    var d := Representative(g, [equiv], projected, k);
    var i :| 0 <= i < |keys| && keys[i] == d;
    GroupRowAt(g, equiv, rows, i);
    x := GroupRows(g, equiv, 0, rows)[i];
    assert RowKey(g, [equiv], d)[0] == RowKey(g, [equiv], k)[0];
  }

  /** Some group row stands for the key class of `e`. */
  ghost predicate HasGroup(g: Gamma, equiv: EquivId, rows: seq<Row>, e: Row) {
    exists x :: x in GroupRows(g, equiv, 0, rows) && KeyMatch(g, equiv, e, 0, x, 0)
  }

  /** Group rows are one per key class that occurs, each with the size of its class. */
  lemma GroupRowsSpec(g: Gamma, equiv: EquivId, rows: seq<Row>)
    requires forall r | r in rows :: |r| == 2
    ensures forall x | x in GroupRows(g, equiv, 0, rows) :: GroupRow(g, equiv, rows, x)
    ensures forall e | e in rows :: HasGroup(g, equiv, rows, e)
    ensures KeyDistinct(g, [equiv, COUNT_EQUIVALENCE], GroupRows(g, equiv, 0, rows))
  {
    GroupRowsDistinct(g, equiv, rows);
    forall e | e in rows ensures HasGroup(g, equiv, rows, e) {
      var x := GroupOfEdge(g, equiv, rows, e);
    }
    forall x | x in GroupRows(g, equiv, 0, rows) ensures GroupRow(g, equiv, rows, x) {
      var i :| 0 <= i < |GroupRows(g, equiv, 0, rows)| && GroupRows(g, equiv, 0, rows)[i] == x;
      GroupRowAt(g, equiv, rows, i);
    }
  }

  /** Group sizes are exact and fit the machine integer, so grouping the edges never fails. */
  lemma GroupedEval(field: ManyField, db: Database, g: Gamma)
    requires DatabaseOk(g, db) && field.edges in db && |db[field.edges].equivs| == 2
    ensures Eval(Grouped(field), db, g) == Ok(GroupsOf(field, db, g))
    ensures Groups(g, GroupsOf(field, db, g))
    ensures forall x | x in GroupsOf(field, db, g).rows :: GroupRow(g, field.sourceEquiv, db[field.edges].rows, x)
  {
    hide KeyDistinct, GroupRows;
    var rows := db[field.edges].rows;
    GroupRowsSpec(g, field.sourceEquiv, rows);
    forall x | x in GroupsOf(field, db, g).rows ensures !CountOverflows(x) {
      CountKeySpec(g, field.sourceEquiv, 0, Key(g, field.sourceEquiv, x[0]), rows);
      CountKeyIs(g, field.sourceEquiv, 0, Key(g, field.sourceEquiv, x[0]), rows);
    }
    assert Eval(Scan(field.edges), db, g) == Ok(db[field.edges]);
  }

  /** Without a bound on the relation, grouping fails exactly when more rows share a key than the machine integer holds. */
  lemma GroupOverflowIff(field: ManyField, db: Database, g: Gamma)
    requires field.edges in db && |db[field.edges].equivs| == 2 && forall r | r in db[field.edges].rows :: |r| == 2
    ensures var rows := db[field.edges].rows;
            Eval(Grouped(field), db, g) == Err(AggregateOverflow)
            <==> exists key :: |Holding(g, field.sourceEquiv, 0, key, rows)| > I64_MAX
  {
    hide KeyDistinct, GroupRows, Holding;
    var rows, equiv := db[field.edges].rows, field.sourceEquiv;
    GroupRowsSpec(g, equiv, rows);
    ScanEval(field.edges, db, g);
    var groups := GroupsOf(field, db, g).rows;
    if key :| |Holding(g, equiv, 0, key, rows)| > I64_MAX {
      var i := SomeOfClass(g, equiv, key, rows);
      var x := GroupOfEdge(g, equiv, rows, rows[i]);
      assert x in groups && CountOverflows(x);
    }
    if x :| x in groups && CountOverflows(x) {
      assert |Holding(g, equiv, 0, Key(g, equiv, x[0]), rows)| > I64_MAX;
    }
  }

  lemma SomeOfClass(g: Gamma, equiv: EquivId, key: Value, rows: seq<Row>) returns (i: int)
    requires |Holding(g, equiv, 0, key, rows)| > 0
    ensures 0 <= i < |rows| && 0 < |rows[i]| && Key(g, equiv, rows[i][0]) == key
  {
    i :| i in Holding(g, equiv, 0, key, rows);
  }

  function GroupsOf(field: ManyField, db: Database, g: Gamma): Table
    requires field.edges in db
  {
    GroupTable(g, db[field.edges], 0, field.sourceEquiv, COUNT_EQUIVALENCE)
  }

  ghost predicate Groups(g: Gamma, t: Table) {
    TableOk(g, t) && |t.equivs| == 2 && forall x | x in t.rows :: Counted(x)
  }

  /** `u` keeps the group rows of `t` whose size is (or is not) accepted by the condition. */
  ghost predicate KeepsGroups(g: Gamma, u: Table, t: Table, condition: CountCondition, accepted: bool) {
    && SameShape(g, u, t)
    && forall x: Row :: x in u.rows <==> x in t.rows && Counted(x) && Meets(condition, x[1].n) == accepted
  }

  lemma GroupsOrdered(g: Gamma, t: Table, expected: int, comparison: Comparison)
    requires Groups(g, t)
    ensures KeepsGroups(g, FilterTable(g, Ordered(1, COUNT_ORDERING, I64(expected), comparison), t), t,
                        CountOrder(expected, comparison), true)
  {
    var test := Ordered(1, COUNT_ORDERING, I64(expected), comparison);
    FilterTableSpec(g, test, t);
  }

  lemma GroupsEqual(g: Gamma, t: Table, expected: int)
    requires Groups(g, t)
    ensures KeepsGroups(g, FilterTable(g, KeyIs(1, COUNT_EQUIVALENCE, I64(expected)), t), t, CountEq(expected), true)
  {
    var test := KeyIs(1, COUNT_EQUIVALENCE, I64(expected));
    FilterTableSpec(g, test, t);
  }

  lemma GroupsDifferent(g: Gamma, t: Table, expected: int)
    requires Groups(g, t)
    ensures var equal := FilterTable(g, KeyIs(1, COUNT_EQUIVALENCE, I64(expected)), t);
            equal.equivs == t.equivs
            && KeepsGroups(g, FilterTable(g, NotAmong(t.equivs, equal.rows), t), t, CountNe(expected), true)
  {
    hide FilterRows, KeyDistinct;
    GroupsEqual(g, t, expected);
    DifferenceSpec(g, t, FilterTable(g, KeyIs(1, COUNT_EQUIVALENCE, I64(expected)), t));
  }

  lemma GroupsBetween(g: Gamma, t: Table, lower: int, upper: int)
    requires Groups(g, t)
    ensures var above := FilterTable(g, Ordered(1, COUNT_ORDERING, I64(lower), GreaterOrEqual), t);
            KeepsGroups(g, FilterTable(g, Ordered(1, COUNT_ORDERING, I64(upper), LessOrEqual), above), t,
                        CountBetween(lower, upper), true)
  {
    hide FilterRows, KeyDistinct;
    var above := FilterTable(g, Ordered(1, COUNT_ORDERING, I64(lower), GreaterOrEqual), t);
    GroupsOrdered(g, t, lower, GreaterOrEqual);
    GroupsOrdered(g, above, upper, LessOrEqual);
  }

  lemma TwoColumns(g: Gamma, t: Table)
    requires Groups(g, t)
    ensures |t.equivs| == 2
  {
  }

  lemma KeepsColumns(g: Gamma, u: Table, t: Table, condition: CountCondition, accepted: bool)
    requires KeepsGroups(g, u, t, condition, accepted)
    ensures u.equivs == t.equivs
  {
  }

  lemma MatchingPositiveSpec(condition: CountCondition, grouped: RelExpr, t: Table, db: Database, g: Gamma)
    requires Groups(g, t) && Eval(grouped, db, g) == Ok(t)
    ensures var r := Eval(MatchingPositive(condition, grouped), db, g);
            r.Ok? && KeepsGroups(g, r.value, t, condition, true)
  {
    hide Eval, FilterTable, KeepsGroups, Groups;
    TwoColumns(g, t);
    match condition
    case CountEq(expected) =>
      FilterEqEval(g, db, grouped, t, 1, I64(expected), COUNT_EQUIVALENCE);
      GroupsEqual(g, t, expected);
    case CountNe(expected) =>
      FilterEqEval(g, db, grouped, t, 1, I64(expected), COUNT_EQUIVALENCE);
      GroupsDifferent(g, t, expected);
      var equal := FilterEqConst(grouped, 1, I64(expected), COUNT_EQUIVALENCE);
      DifferenceEval(g, db, grouped, equal, t, FilterTable(g, KeyIs(1, COUNT_EQUIVALENCE, I64(expected)), t));
    case CountOrder(expected, comparison) =>
      FilterOrderEval(g, db, grouped, t, 1, I64(expected), COUNT_ORDERING, comparison);
      GroupsOrdered(g, t, expected, comparison);
    case CountBetween(lower, upper) =>
      var above := FilterTable(g, Ordered(1, COUNT_ORDERING, I64(lower), GreaterOrEqual), t);
      FilterOrderEval(g, db, grouped, t, 1, I64(lower), COUNT_ORDERING, GreaterOrEqual);
      GroupsOrdered(g, t, lower, GreaterOrEqual);
      KeepsColumns(g, above, t, CountOrder(lower, GreaterOrEqual), true);
      FilterOrderEval(g, db, FilterOrderConst(grouped, 1, I64(lower), COUNT_ORDERING, GreaterOrEqual), above, 1, I64(upper),
                      COUNT_ORDERING, LessOrEqual);
      GroupsBetween(g, t, lower, upper);
  }

  /** What one condition accepts, another rejects, as far as the groups go. */
  lemma KeepsRejected(g: Gamma, u: Table, t: Table, accepting: CountCondition, rejecting: CountCondition)
    requires KeepsGroups(g, u, t, accepting, true)
    requires forall x: Row | x in t.rows && Counted(x) :: Meets(accepting, x[1].n) != Meets(rejecting, x[1].n)
    ensures KeepsGroups(g, u, t, rejecting, false)
  {
    hide Meets, TableOk;
  }

  lemma NonmatchingPositiveSpec(condition: CountCondition, grouped: RelExpr, t: Table, db: Database, g: Gamma)
    requires Groups(g, t) && Eval(grouped, db, g) == Ok(t)
    requires forall x: Row | x in t.rows :: x[1].n > 0
    requires MatchesZero(condition)
    ensures var r := Eval(NonmatchingPositive(condition, grouped), db, g);
            r.Ok? && KeepsGroups(g, r.value, t, condition, false)
  {
    hide Eval, FilterTable, KeepsGroups, TableOk;
    match condition
    case CountEq(expected) =>
      EveryGroupRejected(g, t, condition);
    case CountNe(expected) =>
      FilterEqEval(g, db, grouped, t, 1, I64(expected), COUNT_EQUIVALENCE);
      GroupsEqual(g, t, expected);
      KeepsRejected(g, FilterTable(g, KeyIs(1, COUNT_EQUIVALENCE, I64(expected)), t), t, CountEq(expected), condition);
    case CountOrder(expected, comparison) =>
      FilterOrderEval(g, db, grouped, t, 1, I64(expected), COUNT_ORDERING, Complement(comparison));
      GroupsOrdered(g, t, expected, Complement(comparison));
      KeepsRejected(g, FilterTable(g, Ordered(1, COUNT_ORDERING, I64(expected), Complement(comparison)), t), t,
                    CountOrder(expected, Complement(comparison)), condition);
    case CountBetween(lower, upper) =>
      FilterOrderEval(g, db, grouped, t, 1, I64(upper), COUNT_ORDERING, Greater);
      GroupsOrdered(g, t, upper, Greater);
      KeepsRejected(g, FilterTable(g, Ordered(1, COUNT_ORDERING, I64(upper), Greater), t), t, CountOrder(upper, Greater), condition);
  }

  lemma EveryGroupRejected(g: Gamma, t: Table, condition: CountCondition)
    requires Groups(g, t) && forall x: Row | x in t.rows :: !Meets(condition, x[1].n)
    ensures KeepsGroups(g, t, t, condition, false)
  {
    hide Meets;
  }

  /** Group row `x` is the group of the source row `row`. */
  ghost predicate GroupFor(g: Gamma, field: ManyField, row: Row, x: Row) {
    KeyMatch(g, field.sourceEquiv, row, field.sourceIdentity, x, 0)
  }

  /** The group of `row`, if there is one, carries the edge count of `row`; there is one iff the count is positive. */
  lemma GroupOfRow(field: ManyField, row: Row, db: Database, g: Gamma)
    requires field.edges in db && (forall e | e in db[field.edges].rows :: |e| == 2)
    requires field.sourceIdentity < |row|
    ensures forall x | x in GroupsOf(field, db, g).rows && GroupFor(g, field, row, x) ::
              |x| == 2 && x[1] == I64(EdgeCount(db, g, field, row))
    ensures EdgeCount(db, g, field, row) > 0
            <==> exists x :: x in GroupsOf(field, db, g).rows && GroupFor(g, field, row, x)
  {
    var rows := db[field.edges].rows;
    GroupRowsSpec(g, field.sourceEquiv, rows);
    var key := Key(g, field.sourceEquiv, row[field.sourceIdentity]);
    var edges := EdgesFrom(db, g, field, row);
    assert edges == Holding(g, field.sourceEquiv, 0, key, rows);
    if EdgeCount(db, g, field, row) > 0 {
      var i :| i in edges;
      var e := rows[i];
      var x := GroupOfEdge(g, field.sourceEquiv, rows, e);
      assert GroupFor(g, field, row, x);
    }
  }

  /** `u` holds exactly the rows of `t` on which `p` holds. */
  ghost predicate Selects(u: Table, t: Table, p: Pred, db: Database, g: Gamma) {
    SameShape(g, u, t) && forall r :: r in u.rows <==> r in t.rows && Holds(p, r, db, g)
  }

  /** A row has an accepted (or rejected) group exactly when its count is positive and accepted (or rejected). */
  lemma GroupDecides(field: ManyField, condition: CountCondition, accepted: bool, kept: Table, row: Row, db: Database, g: Gamma)
    requires field.edges in db && (forall e | e in db[field.edges].rows :: |e| == 2)
    requires field.sourceIdentity < |row|
    requires KeepsGroups(g, kept, GroupsOf(field, db, g), condition, accepted)
    ensures (exists x :: x in kept.rows && GroupFor(g, field, row, x))
            <==> EdgeCount(db, g, field, row) > 0 && Meets(condition, EdgeCount(db, g, field, row)) == accepted
  {
    GroupOfRow(field, row, db, g);
    var n := EdgeCount(db, g, field, row);
    if n > 0 && Meets(condition, n) == accepted {
      var x :| x in GroupsOf(field, db, g).rows && GroupFor(g, field, row, x);
      assert x in kept.rows;
    }
  }

  /** Dropping the rows that have a rejected group keeps exactly the rows whose count is accepted. */
  lemma DropRejected(field: ManyField, condition: CountCondition, rejected: Table, t: Table, db: Database, g: Gamma)
    requires DatabaseOk(g, db) && EdgesOk(db, g, field) && TableOk(g, t) && field.sourceIdentity < |t.equivs|
    requires KeepsGroups(g, rejected, GroupsOf(field, db, g), condition, false) && Meets(condition, 0)
    ensures Selects(FilterTable(g, NoMatch(field.sourceIdentity, rejected.rows, 0, field.sourceEquiv), t), t,
                    ManyCount(field, condition), db, g)
  {
    hide FilterRows, KeyDistinct, GroupRows, KeepsGroups;
    var test := NoMatch(field.sourceIdentity, rejected.rows, 0, field.sourceEquiv);
    FilterTableSpec(g, test, t);
    forall r | r in t.rows ensures Keeps(g, test, r) <==> Holds(ManyCount(field, condition), r, db, g) {
      GroupDecides(field, condition, false, rejected, r, db, g);
      assert Keeps(g, test, r) <==> !exists x :: x in rejected.rows && GroupFor(g, field, r, x);
    }
  }

  /** Keeping the rows that have an accepted group keeps exactly the rows whose count is accepted. */
  lemma KeepAccepted(field: ManyField, condition: CountCondition, accepted: Table, t: Table, db: Database, g: Gamma)
    requires DatabaseOk(g, db) && EdgesOk(db, g, field) && TableOk(g, t) && field.sourceIdentity < |t.equivs|
    requires KeepsGroups(g, accepted, GroupsOf(field, db, g), condition, true) && !Meets(condition, 0)
    ensures Selects(SemiJoinTable(g, t, accepted, field.sourceIdentity, 0, field.sourceEquiv), t,
                    ManyCount(field, condition), db, g)
  {
    hide SemiJoinTable, KeyDistinct, GroupRows, KeepsGroups;
    SemiJoinSpec(g, t, accepted, field.sourceIdentity, 0, field.sourceEquiv);
    forall r | r in t.rows
      ensures (exists b :: b in accepted.rows && KeyMatch(g, field.sourceEquiv, r, field.sourceIdentity, b, 0))
              <==> Holds(ManyCount(field, condition), r, db, g)
    {
      GroupDecides(field, condition, true, accepted, r, db, g);
      assert (exists b :: b in accepted.rows && KeyMatch(g, field.sourceEquiv, r, field.sourceIdentity, b, 0))
          <==> (exists x :: x in accepted.rows && GroupFor(g, field, r, x));
    }
  }

  /** `q` evaluates to exactly the rows of `t` on which `p` holds. */
  ghost predicate Answers(q: RelExpr, t: Table, p: Pred, db: Database, g: Gamma) {
    var r := Eval(q, db, g);
    r.Ok? && Selects(r.value, t, p, db, g)
  }

  /** Grouping only sees sources with at least one edge, yet both branches select by the true count. */
  lemma LowerCountCorrect(field: ManyField, condition: CountCondition, input: RelExpr, root: Relation, t: Table,
                          db: Database, g: Gamma)
    requires DatabaseOk(g, db) && EdgesOk(db, g, field) && field.sourceWidth == |root.equivs|
    requires Eval(input, db, g) == Ok(t) && TableOk(g, t) && t.equivs == root.equivs
    ensures Answers(LowerCount(field, condition, input, root), t, ManyCount(field, condition), db, g)
  {
    hide FilterRows, KeyDistinct, GroupRows, DistinctRows, SemiJoinTable, Selects, Eval;
    var grouped := Grouped(field);
    GroupedEval(field, db, g);
    var groups := GroupsOf(field, db, g);
    assert MatchesZero(condition) <==> Meets(condition, 0);
    if MatchesZero(condition) {
      NonmatchingPositiveSpec(condition, grouped, groups, db, g);
      var rejected := Eval(NonmatchingPositive(condition, grouped), db, g).value;
      DropRejected(field, condition, rejected, t, db, g);
      AntiJoinEval(g, db, input, NonmatchingPositive(condition, grouped), t, rejected, field.sourceIdentity, 0, field.sourceEquiv);
    } else {
      MatchingPositiveSpec(condition, grouped, groups, db, g);
      var accepted := Eval(MatchingPositive(condition, grouped), db, g).value;
      KeepAccepted(field, condition, accepted, t, db, g);
      SemiJoinEval(g, db, input, MatchingPositive(condition, grouped), t, accepted, field.sourceIdentity, 0, field.sourceEquiv);
    }
  }

  // ----- Relationships -----

  /** The edge sources leading to the kept targets, as the lowering computes them. */
  function SourcesTable(field: ManyField, kept: Table, db: Database, g: Gamma): Table
    requires field.edges in db
  {
    ProjectTable(g, JoinTable(g, db[field.edges], kept, 1, field.targetIdentity, field.targetEquiv), [0])
  }

  /** Deduplicating edge sources under the edge relation's own equivalence loses no source class. */
  lemma SourcesSpec(field: ManyField, kept: Table, row: Row, db: Database, g: Gamma)
    requires DatabaseOk(g, db) && EdgesOk(db, g, field)
    ensures (exists x :: x in SourcesTable(field, kept, db, g).rows
                         && KeyMatch(g, field.sourceEquiv, row, field.sourceIdentity, x, 0))
            <==> (exists e, t :: e in db[field.edges].rows && t in kept.rows && Related(g, field, row, e, t))
  {
    hide DistinctRows, JoinRows, KeyDistinct;
    var edges := db[field.edges];
    var joined := JoinTable(g, edges, kept, 1, field.targetIdentity, field.targetEquiv);
    var projected := ProjectRows(joined.rows, [0]);
    var equivs := ProjectEquivs(joined.equivs, [0]);
    JoinRowsSpec(g, field.targetEquiv, edges.rows, 1, kept.rows, field.targetIdentity);
    ProjectRowsSpec(joined.rows, [0]);
    DistinctRowsSpec(g, equivs, projected);
    if x :| x in SourcesTable(field, kept, db, g).rows && KeyMatch(g, field.sourceEquiv, row, field.sourceIdentity, x, 0) {
      var j :| j in joined.rows && x == ProjectRow(j, [0]);
      var e, t :| e in edges.rows && t in kept.rows
                  && Joined(g, field.targetEquiv, j, e, 1, t, field.targetIdentity);
      assert Related(g, field, row, e, t);
    }
    if e, t :| e in edges.rows && t in kept.rows && Related(g, field, row, e, t) {
      var d := SourceOfEdge(field, kept, row, e, t, db, g);
    }
  }

  lemma SourceOfEdge(field: ManyField, kept: Table, row: Row, e: Row, t: Row, db: Database, g: Gamma) returns (d: Row)
    requires DatabaseOk(g, db) && EdgesOk(db, g, field)
    requires e in db[field.edges].rows && t in kept.rows && Related(g, field, row, e, t)
    ensures d in SourcesTable(field, kept, db, g).rows && KeyMatch(g, field.sourceEquiv, row, field.sourceIdentity, d, 0)
  {
    hide DistinctRows, JoinRows, KeyDistinct;
    var edges := db[field.edges];
    var joined := JoinTable(g, edges, kept, 1, field.targetIdentity, field.targetEquiv);
    var projected := ProjectRows(joined.rows, [0]);
    var equivs := ProjectEquivs(joined.equivs, [0]);
    JoinRowsSpec(g, field.targetEquiv, edges.rows, 1, kept.rows, field.targetIdentity);
    ProjectRowsSpec(joined.rows, [0]);
    DistinctRowsSpec(g, equivs, projected);
    assert Joined(g, field.targetEquiv, e + t, e, 1, t, field.targetIdentity);
    var k := ProjectRow(e + t, [0]);
    d := Representative(g, equivs, projected, k);
    var j :| j in joined.rows && d == ProjectRow(j, [0]);
    assert RowKey(g, equivs, d)[0] == RowKey(g, equivs, k)[0];
    assert Key(g, edges.equivs[0], d[0]) == Key(g, edges.equivs[0], k[0]);
  }

  /** The targets the lowering of a to-many predicate joins the edges with. */
  ghost predicate KeptTargets(kept: Table, mode: ManyMode, targets: seq<Row>, where: Pred, db: Database, g: Gamma) {
    forall t :: t in kept.rows <==> t in targets && (mode.AllOf? || Holds(where, t, db, g)) && (mode.AllOf? ==> !Holds(where, t, db, g))
  }

  lemma ManyDecides(field: ManyField, mode: ManyMode, target: ObjectType, where: Pred, kept: Table, row: Row,
                    db: Database, g: Gamma)
    requires DatabaseOk(g, db) && EdgesOk(db, g, field) && target.relation.id in db
    requires KeptTargets(kept, mode, db[target.relation.id].rows, where, db, g)
    ensures (exists x :: x in SourcesTable(field, kept, db, g).rows
                         && KeyMatch(g, field.sourceEquiv, row, field.sourceIdentity, x, 0))
            <==> Holds(Many(field, mode, target, where), row, db, g) == mode.AnyOf?
  {
    hide SourcesTable, KeyDistinct;
    SourcesSpec(field, kept, row, db, g);
  }

  lemma ManyTables(field: ManyField, mode: ManyMode, target: ObjectType, where: Pred, kept: Table, t: Table,
                   db: Database, g: Gamma)
    requires DatabaseOk(g, db) && EdgesOk(db, g, field) && target.relation.id in db
    requires KeptTargets(kept, mode, db[target.relation.id].rows, where, db, g) && TableOk(g, t)
    ensures var sources := SourcesTable(field, kept, db, g);
            var p := Many(field, mode, target, where);
            if mode.AnyOf? then
              Selects(SemiJoinTable(g, t, sources, field.sourceIdentity, 0, field.sourceEquiv), t, p, db, g)
            else
              Selects(FilterTable(g, NoMatch(field.sourceIdentity, sources.rows, 0, field.sourceEquiv), t), t, p, db, g)
  {
    hide SourcesTable, KeyDistinct, SemiJoinTable, FilterRows, Holds, KeptTargets;
    var sources := SourcesTable(field, kept, db, g);
    forall r ensures (exists x :: x in sources.rows && KeyMatch(g, field.sourceEquiv, r, field.sourceIdentity, x, 0))
                     <==> Holds(Many(field, mode, target, where), r, db, g) == mode.AnyOf?
    {
      ManyDecides(field, mode, target, where, kept, r, db, g);
    }
    if mode.AnyOf? {
      SemiJoinSpec(g, t, sources, field.sourceIdentity, 0, field.sourceEquiv);
    } else {
      FilterTableSpec(g, NoMatch(field.sourceIdentity, sources.rows, 0, field.sourceEquiv), t);
    }
  }

  /** For `all`, the join runs over the targets that fail the predicate. */
  lemma FailingTargets(all: Table, sel: Table, where: Pred, db: Database, g: Gamma)
    requires TableOk(g, all) && Selects(sel, all, where, db, g)
    ensures KeptTargets(FilterTable(g, NotAmong(all.equivs, sel.rows), all), AllOf, all.rows, where, db, g)
  {
    hide FilterRows, KeyDistinct, Holds;
    DifferenceSpec(g, all, sel);
  }

  lemma MatchingSourcesEval(field: ManyField, target: ObjectType, selected: RelExpr, sel: Table,
                            where: Pred, mode: ManyMode, db: Database, g: Gamma) returns (kept: Table)
    requires DatabaseOk(g, db) && EdgesOk(db, g, field) && HandleOk(db, target.relation)
    requires field.targetIdentity < |target.relation.equivs|
    requires Eval(selected, db, g) == Ok(sel) && Selects(sel, db[target.relation.id], where, db, g)
    ensures Eval(MatchingSources(field, target, selected, !mode.AllOf?), db, g) == Ok(SourcesTable(field, kept, db, g))
    ensures KeptTargets(kept, mode, db[target.relation.id].rows, where, db, g)
  {
    hide FilterRows, KeyDistinct, JoinRows, DistinctRows, Holds, Eval;
    var all := db[target.relation.id];
    ScanEval(field.edges, db, g);
    if mode.AllOf? {
      ScanEval(target.relation.id, db, g);
      FailingTargets(all, sel, where, db, g);
      DifferenceEval(g, db, Scan(target.relation.id), selected, all, sel);
      kept := FilterTable(g, NotAmong(all.equivs, sel.rows), all);
      JoinFirstColumnEval(g, db, Scan(field.edges), Difference(Scan(target.relation.id), selected), db[field.edges], kept,
                          1, field.targetIdentity, field.targetEquiv);
    } else {
      kept := sel;
      JoinFirstColumnEval(g, db, Scan(field.edges), selected, db[field.edges], kept, 1, field.targetIdentity, field.targetEquiv);
    }
  }

  // ----- Reference paths -----

  /** Rows standing before hop `k`: the query's own input at the root, stored rows further on. */
  ghost function LevelTable(hops: seq<Hop>, k: nat, target: ObjectType, t: Table, db: Database): Table {
    if k == 0 then t else if Level(hops, k, target) in db then db[Level(hops, k, target)] else Table([], [])
  }

  /** `u` holds exactly the rows before hop `k` from which the remaining hops reach a matching row. */
  ghost predicate SelectsReaching(u: Table, hops: seq<Hop>, k: nat, target: ObjectType, where: Pred, t: Table,
                                  db: Database, g: Gamma)
    requires k <= |hops|
  {
    && SameShape(g, u, LevelTable(hops, k, target, t, db))
    && forall r :: r in u.rows <==> r in LevelTable(hops, k, target, t, db).rows && Reaches(hops, k, target, where, r, db, g)
  }

  /** One iteration of the hop loop moves the selection one hop towards the root. */
  lemma HopStep(hops: seq<Hop>, k: nat, target: ObjectType, where: Pred, t: Table, sel: Table, db: Database, g: Gamma)
    requires 0 < k <= |hops| && HopOk(db, hops, k - 1, target)
    requires SelectsReaching(sel, hops, k, target, where, t, db, g)
    requires TableOk(g, LevelTable(hops, k - 1, target, t, db))
    ensures var hop := hops[k - 1];
            SelectsReaching(SemiJoinTable(g, LevelTable(hops, k - 1, target, t, db), sel, hop.sourceColumn,
                                          hop.targetIdentity, hop.equiv), hops, k - 1, target, where, t, db, g)
  {
    hide SemiJoinTable, KeyDistinct, Holds;
    var j := k - 1;
    var hop := hops[j];
    var s := LevelTable(hops, j, target, t, db);
    SemiJoinSpec(g, s, sel, hop.sourceColumn, hop.targetIdentity, hop.equiv);
    assert LevelTable(hops, k, target, t, db).rows == RowsOf(db, Level(hops, k, target));
    forall r
      ensures Reaches(hops, j, target, where, r, db, g)
              <==> exists b :: b in sel.rows && KeyMatch(g, hop.equiv, r, hop.sourceColumn, b, hop.targetIdentity)
    {
    }
  }

  /** A path of any length keeps a root row iff its hops lead, row by row, to a matching target row. */
  lemma {:induction false} HopsCorrect(hops: seq<Hop>, k: nat, target: ObjectType, where: Pred, input: RelExpr, t: Table,
                                       selected: RelExpr, sel: Table, db: Database, g: Gamma)
    requires DatabaseOk(g, db) && 0 <= k <= |hops|
    requires forall i | 0 <= i < |hops| :: HopOk(db, hops, i, target)
    requires Eval(input, db, g) == Ok(t) && TableOk(g, t)
    requires hops != [] && t.equivs == hops[0].sourceEquivs
    requires Eval(selected, db, g) == Ok(sel) && SelectsReaching(sel, hops, k, target, where, t, db, g)
    ensures var r := Eval(LowerHops(hops, k, input, selected), db, g);
            r.Ok? && SelectsReaching(r.value, hops, 0, target, where, t, db, g)
    decreases k
  {
    hide SemiJoinTable, KeyDistinct, Holds, Eval, SelectsReaching;
    if k > 0 {
      var hop := hops[k - 1];
      assert HopOk(db, hops, k - 1, target);
      var source := if k == 1 then input else Scan(hop.sourceRelation);
      var s := LevelTable(hops, k - 1, target, t, db);
      assert Eval(source, db, g) == Ok(s) by {
        if k > 1 { ScanEval(hop.sourceRelation, db, g); }
      }
      SelectionWidth(sel, hops, k, target, where, t, db, g);
      HopStep(hops, k, target, where, t, sel, db, g);
      SemiJoinEval(g, db, source, selected, s, sel, hop.sourceColumn, hop.targetIdentity, hop.equiv);
      HopsCorrect(hops, k - 1, target, where, input, t,
                  SemiJoin(source, selected, hop.sourceColumn, hop.targetIdentity, hop.equiv, hop.sourceWidth, hop.sourceEquivs),
                  SemiJoinTable(g, s, sel, hop.sourceColumn, hop.targetIdentity, hop.equiv), db, g);
    }
  }

  lemma SelectionWidth(sel: Table, hops: seq<Hop>, k: nat, target: ObjectType, where: Pred, t: Table, db: Database, g: Gamma)
    requires 0 < k <= |hops| && HopOk(db, hops, k - 1, target)
    requires SelectsReaching(sel, hops, k, target, where, t, db, g)
    ensures hops[k - 1].targetIdentity < |sel.equivs|
  {
  }

  // ----- Boolean structure -----

  lemma AnswersShape(q: RelExpr, t: Table, p: Pred, db: Database, g: Gamma)
    requires Answers(q, t, p, db, g)
    ensures Eval(q, db, g).Ok? && SameShape(g, Eval(q, db, g).value, t)
  {
  }

  lemma AndCorrect(kept: RelExpr, q: RelExpr, t: Table, first: Pred, second: Pred, db: Database, g: Gamma)
    requires Answers(kept, t, first, db, g) && Answers(q, Eval(kept, db, g).value, second, db, g)
    ensures Answers(q, t, And(first, second), db, g)
  {
    hide KeyDistinct, Eval;
  }

  lemma OrCorrect(first: RelExpr, second: RelExpr, t: Table, p: Pred, q: Pred, db: Database, g: Gamma)
    requires TableOk(g, t) && Answers(first, t, p, db, g) && Answers(second, t, q, db, g)
    ensures Answers(Union(first, second), t, Or(p, q), db, g)
  {
    hide KeyDistinct, DistinctRows, UnionTable, Holds, TableOk;
    UnionSpec(g, Eval(first, db, g).value, Eval(second, db, g).value, t);
    DisjunctionHolds(p, q, db, g);
  }

  lemma DisjunctionHolds(p: Pred, q: Pred, db: Database, g: Gamma)
    ensures forall row :: Holds(Or(p, q), row, db, g) <==> Holds(p, row, db, g) || Holds(q, row, db, g)
  {
  }

  /** Complement within the input, because the selected rows are rows of the input. */
  lemma NotCorrect(input: RelExpr, selected: RelExpr, t: Table, p: Pred, db: Database, g: Gamma)
    requires Eval(input, db, g) == Ok(t) && TableOk(g, t) && Answers(selected, t, p, db, g)
    ensures Answers(Difference(input, selected), t, Not(p), db, g)
  {
    hide Eval, TableOk, FilterTable, Holds;
    var sel := Eval(selected, db, g).value;
    DifferenceSpec(g, t, sel);
    DifferenceEval(g, db, input, selected, t, sel);
    NegationHolds(p, db, g);
  }

  lemma NegationHolds(p: Pred, db: Database, g: Gamma)
    ensures forall row :: Holds(Not(p), row, db, g) <==> !Holds(p, row, db, g)
  {
  }

  lemma RefCorrect(p: Pred, input: RelExpr, t: Table, selected: RelExpr, db: Database, g: Gamma)
    requires p.RefTo? && p.target.identity.Some? && HandleOk(db, p.target.relation)
    requires p.target.identity.value < |p.target.relation.equivs| && p.sourceColumn < |t.equivs|
    requires Eval(input, db, g) == Ok(t) && TableOk(g, t)
    requires Answers(selected, db[p.target.relation.id], p.where, db, g)
    ensures Answers(SemiJoin(input, selected, p.sourceColumn, p.target.identity.value, p.equiv, |t.equivs|, t.equivs),
                    t, p, db, g)
  {
    hide KeyDistinct, SemiJoinTable, Eval;
    var sel := Eval(selected, db, g).value;
    SemiJoinEval(g, db, input, selected, t, sel, p.sourceColumn, p.target.identity.value, p.equiv);
    SemiJoinSpec(g, t, sel, p.sourceColumn, p.target.identity.value, p.equiv);
  }

  lemma BetweenCorrect(p: Pred, input: RelExpr, t: Table, db: Database, g: Gamma)
    requires p.Between? && p.ordering.Some? && p.column < |t.equivs|
    requires Eval(input, db, g) == Ok(t) && TableOk(g, t)
    ensures Answers(FilterOrderConst(FilterOrderConst(input, p.column, p.lower, p.ordering.value, GreaterOrEqual),
                                     p.column, p.upper, p.ordering.value, LessOrEqual), t, p, db, g)
  {
    hide KeyDistinct, FilterRows, Eval;
    var above := FilterTable(g, Ordered(p.column, p.ordering.value, p.lower, GreaterOrEqual), t);
    FilterOrderEval(g, db, input, t, p.column, p.lower, p.ordering.value, GreaterOrEqual);
    FilterOrderEval(g, db, FilterOrderConst(input, p.column, p.lower, p.ordering.value, GreaterOrEqual), above,
                    p.column, p.upper, p.ordering.value, LessOrEqual);
    FilterTableSpec(g, Ordered(p.column, p.ordering.value, p.lower, GreaterOrEqual), t);
    FilterTableSpec(g, Ordered(p.column, p.ordering.value, p.upper, LessOrEqual), above);
  }

  lemma FieldTestCorrect(p: Pred, input: RelExpr, root: Relation, t: Table, db: Database, g: Gamma)
    requires p.EqConst? || p.EqColumns? || p.Order? || p.Between? || p.OptionalIsSome?
    requires HandleOk(db, root) && WellFormed(p, root, db, g)
    requires Eval(input, db, g) == Ok(t) && TableOk(g, t) && t.equivs == root.equivs
    ensures Lower(p, input, root).Ok? ==> Answers(Lower(p, input, root).value, t, p, db, g)
  {
    hide KeyDistinct, FilterRows, Eval, TableOk, Answers;
    if Lower(p, input, root).Ok? {
      match p
      case EqConst(relation, column, equiv, value) =>
        FilterEqEval(g, db, input, t, column, value, equiv);
        FilterAnswers(FilterEqConst(input, column, value, equiv), KeyIs(column, equiv, value), t, p, db, g);
      case EqColumns(relation, rightRelation, left, right, equiv) =>
        FilterColumnsEval(g, db, input, t, left, right, equiv);
        FilterAnswers(FilterEqColumns(input, left, right, equiv), SameKeys(left, right, equiv), t, p, db, g);
      case Order(relation, column, ordering, value, comparison) =>
        FilterOrderEval(g, db, input, t, column, value, ordering.value, comparison);
        FilterAnswers(FilterOrderConst(input, column, value, ordering.value, comparison),
                      Ordered(column, ordering.value, value, comparison), t, p, db, g);
      case Between(_, _, _, _, _) => BetweenCorrect(p, input, t, db, g);
      case OptionalIsSome(_, _, _) => OptionalCorrect(p, input, t, db, g);
    }
  }

  /** A filter answers a predicate when its row test is the predicate's meaning. */
  lemma FilterAnswers(q: RelExpr, test: RowTest, t: Table, p: Pred, db: Database, g: Gamma)
    requires TableOk(g, t) && Eval(q, db, g) == Ok(FilterTable(g, test, t))
    requires forall row | row in t.rows :: Keeps(g, test, row) <==> Holds(p, row, db, g)
    ensures Answers(q, t, p, db, g)
  {
    hide KeyDistinct, FilterTable, Eval, Holds, Keeps, TableOk;
    FilterTableSpec(g, test, t);
  }

  lemma OptionalCorrect(p: Pred, input: RelExpr, t: Table, db: Database, g: Gamma)
    requires p.OptionalIsSome? && p.column < |t.equivs|
    requires Eval(input, db, g) == Ok(t) && TableOk(g, t)
    ensures Answers(Difference(input, FilterEqConst(input, p.column, OptionNone, p.equiv)), t, p, db, g)
  {
    hide KeyDistinct, FilterRows, Eval;
    var none := FilterTable(g, KeyIs(p.column, p.equiv, OptionNone), t);
    FilterEqEval(g, db, input, t, p.column, OptionNone, p.equiv);
    FilterTableSpec(g, KeyIs(p.column, p.equiv, OptionNone), t);
    DifferenceSpec(g, t, none);
    DifferenceEval(g, db, input, FilterEqConst(input, p.column, OptionNone, p.equiv), t, none);
  }

  lemma ManyCorrect(field: ManyField, mode: ManyMode, target: ObjectType, where: Pred, input: RelExpr, root: Relation,
                    t: Table, selected: RelExpr, db: Database, g: Gamma)
    requires DatabaseOk(g, db) && EdgesOk(db, g, field) && HandleOk(db, target.relation)
    requires field.targetIdentity < |target.relation.equivs| && field.sourceWidth == |root.equivs|
    requires Eval(input, db, g) == Ok(t) && TableOk(g, t) && t.equivs == root.equivs
    requires Answers(selected, db[target.relation.id], where, db, g)
    ensures var sources := MatchingSources(field, target, selected, !mode.AllOf?);
            Answers(if mode.AnyOf? then
                      SemiJoin(input, sources, field.sourceIdentity, 0, field.sourceEquiv, field.sourceWidth, root.equivs)
                    else AntiJoin(input, sources, field.sourceIdentity, 0, field.sourceEquiv),
                    t, Many(field, mode, target, where), db, g)
  {
    hide Eval, Selects, SemiJoinTable, KeyDistinct, KeptTargets, FilterRows;
    var sources := MatchingSources(field, target, selected, !mode.AllOf?);
    var kept := MatchingSourcesEval(field, target, selected, Eval(selected, db, g).value, where, mode, db, g);
    ManyTables(field, mode, target, where, kept, t, db, g);
    var table := SourcesTable(field, kept, db, g);
    if mode.AnyOf? {
      SemiJoinEval(g, db, input, sources, t, table, field.sourceIdentity, 0, field.sourceEquiv);
    } else {
      AntiJoinEval(g, db, input, sources, t, table, field.sourceIdentity, 0, field.sourceEquiv);
    }
  }

  lemma PathCorrect(p: Pred, input: RelExpr, root: Relation, t: Table, selected: RelExpr, db: Database, g: Gamma)
    requires p.Path? && p.hops != [] && DatabaseOk(g, db) && HandleOk(db, p.target.relation)
    requires forall k | 0 <= k < |p.hops| :: HopOk(db, p.hops, k, p.target)
    requires HandleOk(db, root) && p.hops[0].sourceRelation == root.id
    requires Eval(input, db, g) == Ok(t) && TableOk(g, t) && t.equivs == root.equivs
    requires Answers(selected, db[p.target.relation.id], p.where, db, g)
    ensures Answers(LowerHops(p.hops, |p.hops|, input, selected), t, p, db, g)
  {
    hide KeyDistinct, Eval, LowerHops;
    assert HopOk(db, p.hops, 0, p.target);
    HopsCorrect(p.hops, |p.hops|, p.target, p.where, input, t, selected, Eval(selected, db, g).value, db, g);
  }

  // ----- The theorem -----

  /** What lowering accepts answers the predicate. */
  lemma {:induction false} AcceptedAnswers(p: Pred, input: RelExpr, root: Relation, t: Table, db: Database, g: Gamma)
    requires DatabaseOk(g, db) && HandleOk(db, root) && WellFormed(p, root, db, g)
    requires Eval(input, db, g) == Ok(t) && TableOk(g, t) && t.equivs == root.equivs
    ensures Lower(p, input, root).Ok? ==> Answers(Lower(p, input, root).value, t, p, db, g)
    decreases p, 1
  {
    hide KeyDistinct, EdgesOk, Eval, Answers, Holds, Lower;
    match p
    case And(_, _) => ConnectiveCorrect(p, input, root, t, db, g);
    case Or(_, _) => ConnectiveCorrect(p, input, root, t, db, g);
    case Not(_) => ConnectiveCorrect(p, input, root, t, db, g);
    case RefTo(_, _, _, _, _) => NavigationCorrect(p, input, root, t, db, g);
    case Path(_, _, _) => NavigationCorrect(p, input, root, t, db, g);
    case Many(_, _, _, _) => NavigationCorrect(p, input, root, t, db, g);
    case ManyCount(_, _) => CountCorrect(p, input, root, t, db, g);
    case _ => FieldTestCorrect(p, input, root, t, db, g);
  }

  lemma {:induction false} ConnectiveCorrect(p: Pred, input: RelExpr, root: Relation, t: Table, db: Database, g: Gamma)
    requires p.And? || p.Or? || p.Not?
    requires DatabaseOk(g, db) && HandleOk(db, root) && WellFormed(p, root, db, g)
    requires Eval(input, db, g) == Ok(t) && TableOk(g, t) && t.equivs == root.equivs
    ensures Lower(p, input, root).Ok? ==> Answers(Lower(p, input, root).value, t, p, db, g)
    decreases p, 0
  {
    hide KeyDistinct, EdgesOk, Eval, Answers, Holds;
    if Lower(p, input, root).Ok? {
      match p
      case And(first, second) =>
        AcceptedAnswers(first, input, root, t, db, g);
        var kept := Lower(first, input, root).value;
        AnswersShape(kept, t, first, db, g);
        AcceptedAnswers(second, kept, root, Eval(kept, db, g).value, db, g);
        AndCorrect(kept, Lower(second, kept, root).value, t, first, second, db, g);
      case Or(first, second) =>
        AcceptedAnswers(first, input, root, t, db, g);
        AcceptedAnswers(second, input, root, t, db, g);
        OrCorrect(Lower(first, input, root).value, Lower(second, input, root).value, t, first, second, db, g);
      case Not(inner) =>
        AcceptedAnswers(inner, input, root, t, db, g);
        NotCorrect(input, Lower(inner, input, root).value, t, inner, db, g);
    }
  }

  lemma {:induction false} NavigationCorrect(p: Pred, input: RelExpr, root: Relation, t: Table, db: Database, g: Gamma)
    requires p.RefTo? || p.Path? || p.Many?
    requires DatabaseOk(g, db) && HandleOk(db, root) && WellFormed(p, root, db, g)
    requires Eval(input, db, g) == Ok(t) && TableOk(g, t) && t.equivs == root.equivs
    ensures Lower(p, input, root).Ok? ==> Answers(Lower(p, input, root).value, t, p, db, g)
    decreases p, 0
  {
    hide KeyDistinct, EdgesOk, Eval, Answers, Holds;
    if Lower(p, input, root).Ok? {
      match p
      case RefTo(_, _, _, target, where) =>
        TargetCorrect(where, target, db, g);
        RefCorrect(p, input, t, Lower(where, Scan(target.relation.id), target.relation).value, db, g);
      case Path(_, target, where) =>
        TargetCorrect(where, target, db, g);
        PathCorrect(p, input, root, t, Lower(where, Scan(target.relation.id), target.relation).value, db, g);
      case Many(field, mode, target, where) =>
        TargetCorrect(where, target, db, g);
        ManyCorrect(field, mode, target, where, input, root, t,
                    Lower(where, Scan(target.relation.id), target.relation).value, db, g);
    }
  }

  lemma CountCorrect(p: Pred, input: RelExpr, root: Relation, t: Table, db: Database, g: Gamma)
    requires p.ManyCount? && DatabaseOk(g, db) && HandleOk(db, root) && WellFormed(p, root, db, g)
    requires Eval(input, db, g) == Ok(t) && TableOk(g, t) && t.equivs == root.equivs
    ensures Lower(p, input, root).Ok? ==> Answers(Lower(p, input, root).value, t, p, db, g)
  {
    hide KeyDistinct, EdgesOk, Eval, Answers, Holds;
    LowerCountCorrect(p.field, p.condition, input, root, t, db, g);
  }

  /** The nested target predicate, applied to a scan of the target relation. */
  lemma {:induction false} TargetCorrect(where: Pred, target: ObjectType, db: Database, g: Gamma)
    requires DatabaseOk(g, db) && HandleOk(db, target.relation) && WellFormed(where, target.relation, db, g)
    ensures var r := Lower(where, Scan(target.relation.id), target.relation);
            r.Ok? ==> Answers(r.value, db[target.relation.id], where, db, g)
    decreases where, 2
  {
    hide KeyDistinct, Eval;
    ScanEval(target.relation.id, db, g);
    AcceptedAnswers(where, Scan(target.relation.id), target.relation, db[target.relation.id], db, g);
  }

  /** Lowering accepts exactly the acceptable predicates, and the lowered query then evaluates to exactly the input rows on which the
      predicate holds, for predicates nested to any depth over any database of set relations. */
  lemma LowerCorrect(p: Pred, input: RelExpr, root: Relation, t: Table, db: Database, g: Gamma)
    requires DatabaseOk(g, db) && HandleOk(db, root) && WellFormed(p, root, db, g)
    requires Eval(input, db, g) == Ok(t) && TableOk(g, t) && t.equivs == root.equivs
    ensures Lower(p, input, root).Ok? <==> Acceptable(p, root)
    ensures Acceptable(p, root) ==> Answers(Lower(p, input, root).value, t, p, db, g)
  {
    hide KeyDistinct, Eval, Answers, Lower, Acceptable, WellFormed;
    AcceptedAnswers(p, input, root, t, db, g);
    LowerAccepts(p, input, root);
  }

  // ----- Field tests by the registry's verdicts -----

  /** What a comparison asks of the sign of a canonical ordering. */
  predicate AsksFor(comparison: Comparison, sign: int) {
    || (comparison.Less? && sign < 0)
    || (comparison.LessOrEqual? && sign <= 0)
    || (comparison.Greater? && sign > 0)
    || (comparison.GreaterOrEqual? && sign >= 0)
  }

  /** Field tests hold by the canonical keys and orderings of the registry, the cell before the constant. */
  lemma HoldsByRegistry(p: Pred, row: Row, db: Database, g: Gamma)
    ensures p.EqConst? && p.equiv != COUNT_EQUIVALENCE ==>
              (Holds(p, row, db, g) <==> p.column < |row| && (g.key)(p.equiv, row[p.column]) == (g.key)(p.equiv, p.value))
    ensures p.EqColumns? && p.equiv != COUNT_EQUIVALENCE ==>
              (Holds(p, row, db, g)
               <==> p.left < |row| && p.right < |row| && (g.key)(p.equiv, row[p.left]) == (g.key)(p.equiv, row[p.right]))
    ensures p.Order? && p.ordering.Some? && p.ordering.value != COUNT_ORDERING ==>
              (Holds(p, row, db, g)
               <==> p.column < |row| && AsksFor(p.comparison, (g.compare)(p.ordering.value, row[p.column], p.value)))
    ensures p.Between? && p.ordering.Some? && p.ordering.value != COUNT_ORDERING ==>
              (Holds(p, row, db, g)
               <==> && p.column < |row|
                    && (g.compare)(p.ordering.value, row[p.column], p.lower) >= 0
                    && (g.compare)(p.ordering.value, row[p.column], p.upper) <= 0)
    ensures p.OptionalIsSome? && p.equiv != COUNT_EQUIVALENCE ==>
              (Holds(p, row, db, g) <==> p.column < |row| && (g.key)(p.equiv, row[p.column]) != (g.key)(p.equiv, OptionNone))
  {
    match p
    case Order(_, _, _, _, comparison) =>
      match comparison {
        case Less =>
        case LessOrEqual =>
        case Greater =>
        case GreaterOrEqual =>
      }
    case _ =>
  }
}
