/** The relational expressions that object predicates are lowered to, and their
    evaluation over a database of set relations.

    Row equality is never host equality: every column carries an equivalence, and
    the operators compare the canonical keys that the semantic registry (`Gamma`)
    assigns to values under that equivalence. */
module RelationalAlgebra {
  import opened Wrappers

  type RelationId = nat
  type EquivId = nat
  type OrderId = nat

  datatype Value =
    | Unit
    | Bool(b: bool)
    | I64(n: int)
    | F64Bits(bits: nat)
    | Text(text: string)
    | EntityRef(entityType: nat, id: nat)
    | OptionNone
    | OptionSome(inner: Value)

  type Row = seq<Value>

  datatype Comparison = Less | LessOrEqual | Greater | GreaterOrEqual

  /** The pinned semantic registry: `key` is the canonical representative of a value's
      equivalence class, `compare` the sign of a canonical ordering. Counts are compared as integers. */
  datatype Gamma = Gamma(key: (EquivId, Value) -> Value, compare: (OrderId, Value, Value) -> int)

  const COUNT_EQUIVALENCE: EquivId := 0
  const COUNT_ORDERING: OrderId := 0
  const I64_MAX := 0x7FFF_FFFF_FFFF_FFFF

  function Key(g: Gamma, equiv: EquivId, value: Value): Value {
    if equiv == COUNT_EQUIVALENCE then value else (g.key)(equiv, value)
  }

  function Compare(g: Gamma, ordering: OrderId, a: Value, b: Value): int {
    if ordering == COUNT_ORDERING && a.I64? && b.I64? then a.n - b.n else (g.compare)(ordering, a, b)
  }

  predicate Passes(sign: int, comparison: Comparison) {
    match comparison
    case Less => sign < 0
    case LessOrEqual => sign <= 0
    case Greater => sign > 0
    case GreaterOrEqual => sign >= 0
  }

  /** A set relation: its rows and the equivalence of each column. */
  datatype Table = Table(rows: seq<Row>, equivs: seq<EquivId>)

  type Database = map<RelationId, Table>

  datatype QueryError =
    | UnknownRelation
    | ColumnOutOfBounds
    | EquivalenceArityMismatch
    | TypeMismatch
    | AggregateOverflow

  datatype RelExpr =
    | Scan(relation: RelationId)
    | FilterEqConst(input: RelExpr, column: nat, value: Value, equiv: EquivId)
    | FilterOrderConst(input: RelExpr, column: nat, value: Value, ordering: OrderId, comparison: Comparison)
    | FilterEqColumns(input: RelExpr, leftColumn: nat, rightColumn: nat, equiv: EquivId)
    | Project(input: RelExpr, columns: seq<nat>)
    | JoinEq(left: RelExpr, right: RelExpr, leftColumn: nat, rightColumn: nat, equiv: EquivId)
    | Difference(left: RelExpr, right: RelExpr)
    | Union(left: RelExpr, right: RelExpr)
    | AntiJoin(left: RelExpr, right: RelExpr, leftColumn: nat, rightColumn: nat, equiv: EquivId)
    | Distinct(input: RelExpr, equivs: seq<EquivId>)
    | GroupCount(input: RelExpr, column: nat, equiv: EquivId, resultEquiv: EquivId)

  // ----- Row operators -----

  /** Canonical key of a whole row; a row narrower than its equivalences has a short key. */
  function RowKey(g: Gamma, equivs: seq<EquivId>, row: Row): seq<Value> {
    seq(if |equivs| <= |row| then |equivs| else |row|,
        i requires 0 <= i < |equivs| && i < |row| => Key(g, equivs[i], row[i]))
  }

  predicate KeyMatch(g: Gamma, equiv: EquivId, a: Row, ca: nat, b: Row, cb: nat) {
    ca < |a| && cb < |b| && Key(g, equiv, a[ca]) == Key(g, equiv, b[cb])
  }

  /** The row tests by which the filtering operators keep a row. */
  datatype RowTest =
    | KeyIs(column: nat, equiv: EquivId, value: Value)
    | Ordered(column: nat, ordering: OrderId, value: Value, comparison: Comparison)
    | SameKeys(left: nat, right: nat, equiv: EquivId)
    | NotAmong(equivs: seq<EquivId>, blocked: seq<Row>)
    | NoMatch(left: nat, blocked: seq<Row>, right: nat, equiv: EquivId)

  predicate Keeps(g: Gamma, test: RowTest, row: Row) {
    match test
    case KeyIs(column, equiv, value) => column < |row| && Key(g, equiv, row[column]) == Key(g, equiv, value)
    case Ordered(column, ordering, value, comparison) =>
      column < |row| && Passes(Compare(g, ordering, row[column], value), comparison)
    case SameKeys(left, right, equiv) => KeyMatch(g, equiv, row, left, row, right)
    case NotAmong(equivs, blocked) => !exists b | b in blocked :: RowKey(g, equivs, b) == RowKey(g, equivs, row)
    case NoMatch(left, blocked, right, equiv) => !exists b | b in blocked :: KeyMatch(g, equiv, row, left, b, right)
  }

  function FilterRows(g: Gamma, test: RowTest, rows: seq<Row>): seq<Row> {
    if rows == [] then []
    else
      var rest := FilterRows(g, test, rows[..|rows| - 1]);
      if Keeps(g, test, rows[|rows| - 1]) then rest + [rows[|rows| - 1]] else rest
  }

  /** First representative of every row class, in order. */
  function DistinctRows(g: Gamma, equivs: seq<EquivId>, rows: seq<Row>): seq<Row> {
    if rows == [] then []
    else
      var rest := DistinctRows(g, equivs, rows[..|rows| - 1]);
      var last := rows[|rows| - 1];
      if exists r | r in rest :: RowKey(g, equivs, r) == RowKey(g, equivs, last) then rest else rest + [last]
  }

  function JoinOne(g: Gamma, equiv: EquivId, a: Row, ca: nat, right: seq<Row>, cb: nat): seq<Row> {
    if right == [] then []
    else
      var rest := JoinOne(g, equiv, a, ca, right[..|right| - 1], cb);
      var b := right[|right| - 1];
      if KeyMatch(g, equiv, a, ca, b, cb) then rest + [a + b] else rest
  }

  function JoinRows(g: Gamma, equiv: EquivId, left: seq<Row>, ca: nat, right: seq<Row>, cb: nat): seq<Row> {
    if left == [] then []
    else
      JoinRows(g, equiv, left[..|left| - 1], ca, right, cb) + JoinOne(g, equiv, left[|left| - 1], ca, right, cb)
  }

  function ProjectRow(row: Row, columns: seq<nat>): Row {
    seq(|columns|, i requires 0 <= i < |columns| => if columns[i] < |row| then row[columns[i]] else Unit)
  }

  function ProjectRows(rows: seq<Row>, columns: seq<nat>): seq<Row> {
    seq(|rows|, i requires 0 <= i < |rows| => ProjectRow(rows[i], columns))
  }

  function ProjectEquivs(equivs: seq<EquivId>, columns: seq<nat>): seq<EquivId> {
    seq(|columns|, i requires 0 <= i < |columns| => if columns[i] < |equivs| then equivs[columns[i]] else 0)
  }

  /** Number of rows whose `column` has the given canonical key. */
  function CountKey(g: Gamma, equiv: EquivId, column: nat, key: Value, rows: seq<Row>): nat {
    if rows == [] then 0
    else
      var last := rows[|rows| - 1];
      CountKey(g, equiv, column, key, rows[..|rows| - 1])
      + if column < |last| && Key(g, equiv, last[column]) == key then 1 else 0
  }

  /** One output row per non-empty group: the group's first key value and its size. */
  function GroupRows(g: Gamma, equiv: EquivId, column: nat, rows: seq<Row>): seq<Row> {
    var keys := DistinctRows(g, [equiv], ProjectRows(rows, [column]));
    seq(|keys|, i requires 0 <= i < |keys| =>
      keys[i] + [I64(CountKey(g, equiv, column, if |keys[i]| == 1 then Key(g, equiv, keys[i][0]) else Unit, rows))])
  }

  // ----- Table operators -----

  function FilterTable(g: Gamma, test: RowTest, t: Table): Table {
    Table(FilterRows(g, test, t.rows), t.equivs)
  }

  function ProjectTable(g: Gamma, t: Table, columns: seq<nat>): Table {
    var equivs := ProjectEquivs(t.equivs, columns);
    Table(DistinctRows(g, equivs, ProjectRows(t.rows, columns)), equivs)
  }

  function JoinTable(g: Gamma, l: Table, r: Table, leftColumn: nat, rightColumn: nat, equiv: EquivId): Table {
    Table(JoinRows(g, equiv, l.rows, leftColumn, r.rows, rightColumn), l.equivs + r.equivs)
  }

  function DistinctTable(g: Gamma, t: Table, equivs: seq<EquivId>): Table {
    Table(DistinctRows(g, equivs, t.rows), equivs)
  }

  function UnionTable(g: Gamma, l: Table, r: Table): Table {
    Table(DistinctRows(g, l.equivs, l.rows + r.rows), l.equivs)
  }

  function GroupTable(g: Gamma, t: Table, column: nat, equiv: EquivId, resultEquiv: EquivId): Table {
    Table(GroupRows(g, equiv, column, t.rows), [equiv, resultEquiv])
  }

  predicate CountOverflows(row: Row) {
    |row| == 2 && row[1].I64? && row[1].n > I64_MAX
  }

  // ----- Evaluation -----

  function Eval(q: RelExpr, db: Database, g: Gamma): (r: Result<Table, QueryError>)
  {
    match q
    case Scan(relation) =>
      if relation in db then Ok(db[relation]) else Err(UnknownRelation)
    case FilterEqConst(input, column, value, equiv) =>
      var t :- Eval(input, db, g);
      if column >= |t.equivs| then Err(ColumnOutOfBounds)
      else Ok(FilterTable(g, KeyIs(column, equiv, value), t))
    case FilterOrderConst(input, column, value, ordering, comparison) =>
      var t :- Eval(input, db, g);
      if column >= |t.equivs| then Err(ColumnOutOfBounds)
      else Ok(FilterTable(g, Ordered(column, ordering, value, comparison), t))
    case FilterEqColumns(input, leftColumn, rightColumn, equiv) =>
      var t :- Eval(input, db, g);
      if leftColumn >= |t.equivs| || rightColumn >= |t.equivs| then Err(ColumnOutOfBounds)
      else Ok(FilterTable(g, SameKeys(leftColumn, rightColumn, equiv), t))
    case Project(input, columns) =>
      var t :- Eval(input, db, g);
      if exists i | 0 <= i < |columns| :: columns[i] >= |t.equivs| then Err(ColumnOutOfBounds)
      else Ok(ProjectTable(g, t, columns))
    case JoinEq(left, right, leftColumn, rightColumn, equiv) =>
      var l :- Eval(left, db, g);
      var r :- Eval(right, db, g);
      if leftColumn >= |l.equivs| || rightColumn >= |r.equivs| then Err(ColumnOutOfBounds)
      else Ok(JoinTable(g, l, r, leftColumn, rightColumn, equiv))
    case Difference(left, right) =>
      var l :- Eval(left, db, g);
      var r :- Eval(right, db, g);
      if l.equivs != r.equivs then Err(TypeMismatch)
      else Ok(FilterTable(g, NotAmong(l.equivs, r.rows), l))
    case Union(left, right) =>
      var l :- Eval(left, db, g);
      var r :- Eval(right, db, g);
      if l.equivs != r.equivs then Err(TypeMismatch)
      else Ok(UnionTable(g, l, r))
    case AntiJoin(left, right, leftColumn, rightColumn, equiv) =>
      var l :- Eval(left, db, g);
      var r :- Eval(right, db, g);
      if leftColumn >= |l.equivs| || rightColumn >= |r.equivs| then Err(ColumnOutOfBounds)
      else Ok(FilterTable(g, NoMatch(leftColumn, r.rows, rightColumn, equiv), l))
    case Distinct(input, equivs) =>
      var t :- Eval(input, db, g);
      if |equivs| != |t.equivs| then Err(EquivalenceArityMismatch)
      else Ok(DistinctTable(g, t, equivs))
    case GroupCount(input, column, equiv, resultEquiv) =>
      var t :- Eval(input, db, g);
      if column >= |t.equivs| then Err(ColumnOutOfBounds)
      else
        var grouped := GroupTable(g, t, column, equiv, resultEquiv);
        if exists r | r in grouped.rows :: CountOverflows(r) then Err(AggregateOverflow) else Ok(grouped)
  }

  // ----- Well-formed tables -----

  ghost predicate FreshKey(g: Gamma, equivs: seq<EquivId>, rows: seq<Row>, row: Row) {
    forall r | r in rows :: RowKey(g, equivs, r) != RowKey(g, equivs, row)
  }

  /** No two rows of the sequence share a canonical key. */
  ghost predicate KeyDistinct(g: Gamma, equivs: seq<EquivId>, rows: seq<Row>) {
    rows != [] ==>
      && KeyDistinct(g, equivs, rows[..|rows| - 1])
      && FreshKey(g, equivs, rows[..|rows| - 1], rows[|rows| - 1])
  }

  ghost predicate TableOk(g: Gamma, t: Table) {
    && (forall r | r in t.rows :: |r| == |t.equivs|)
    && KeyDistinct(g, t.equivs, t.rows)
  }

  /** Every stored relation is a set relation whose counts fit the machine integer. */
  ghost predicate DatabaseOk(g: Gamma, db: Database) {
    forall rel | rel in db :: TableOk(g, db[rel]) && |db[rel].rows| <= I64_MAX
  }

  // ----- What each operator's rows are -----

  lemma {:induction false} FilterRowsSpec(g: Gamma, equivs: seq<EquivId>, test: RowTest, rows: seq<Row>)
    ensures forall r :: r in FilterRows(g, test, rows) <==> r in rows && Keeps(g, test, r)
    ensures KeyDistinct(g, equivs, rows) ==> KeyDistinct(g, equivs, FilterRows(g, test, rows))
  {
    if rows != [] {
      var init, last := rows[..|rows| - 1], rows[|rows| - 1];
      assert rows == init + [last];
      FilterRowsSpec(g, equivs, test, init);
      var out := FilterRows(g, test, rows);
      assert Keeps(g, test, last) ==> out[..|out| - 1] == FilterRows(g, test, init);
    }
  }

  lemma {:induction false} DistinctRowsSpec(g: Gamma, equivs: seq<EquivId>, rows: seq<Row>)
    ensures KeyDistinct(g, equivs, DistinctRows(g, equivs, rows))
    ensures forall r :: r in DistinctRows(g, equivs, rows) ==> r in rows
  {
    if rows != [] {
      var init := rows[..|rows| - 1];
      DistinctRowsSpec(g, equivs, init);
      var rest, out := DistinctRows(g, equivs, init), DistinctRows(g, equivs, rows);
      if out != rest {
        assert out[..|out| - 1] == rest;
      }
    }
  }

  /** Every row is represented in the deduplicated rows by a row of its class. */
  lemma {:induction false} Representative(g: Gamma, equivs: seq<EquivId>, rows: seq<Row>, row: Row) returns (d: Row)
    requires row in rows
    ensures d in DistinctRows(g, equivs, rows) && RowKey(g, equivs, d) == RowKey(g, equivs, row)
  {
    var init, last := rows[..|rows| - 1], rows[|rows| - 1];
    assert rows == init + [last];
    var rest := DistinctRows(g, equivs, init);
    if row in init {
      d := Representative(g, equivs, init, row);
    } else if r :| r in rest && RowKey(g, equivs, r) == RowKey(g, equivs, last) {
      d := r;
    } else {
      d := last;
      assert DistinctRows(g, equivs, rows) == rest + [last];
    }
  }

  /** Two rows of a set relation with the same key are the same row. */
  lemma {:induction false} SameKeySameRow(g: Gamma, equivs: seq<EquivId>, rows: seq<Row>, a: Row, b: Row)
    requires KeyDistinct(g, equivs, rows)
    requires a in rows && b in rows && RowKey(g, equivs, a) == RowKey(g, equivs, b)
    ensures a == b
  {
    var init, last := rows[..|rows| - 1], rows[|rows| - 1];
    assert rows == init + [last];
    if a in init && b in init {
      SameKeySameRow(g, equivs, init, a, b);
    }
  }

  /** Deduplicating rows that all come from one set relation loses none of them. */
  lemma DistinctWithinSet(g: Gamma, equivs: seq<EquivId>, rows: seq<Row>, universe: seq<Row>)
    requires KeyDistinct(g, equivs, universe)
    requires forall r | r in rows :: r in universe
    ensures KeyDistinct(g, equivs, DistinctRows(g, equivs, rows))
    ensures forall r :: r in DistinctRows(g, equivs, rows) <==> r in rows
  {
    DistinctRowsSpec(g, equivs, rows);
    forall r | r in rows ensures r in DistinctRows(g, equivs, rows) {
      var d := Representative(g, equivs, rows, r);
      SameKeySameRow(g, equivs, universe, d, r);
    }
  }

  lemma {:induction false} JoinOneSpec(g: Gamma, equiv: EquivId, a: Row, ca: nat, right: seq<Row>, cb: nat)
    ensures forall x :: x in JoinOne(g, equiv, a, ca, right, cb)
                        <==> exists b :: b in right && KeyMatch(g, equiv, a, ca, b, cb) && x == a + b
  {
    if right != [] {
      assert right == right[..|right| - 1] + [right[|right| - 1]];
      JoinOneSpec(g, equiv, a, ca, right[..|right| - 1], cb);
    }
  }

  /** `x` is the concatenation of a left and a right row with matching keys. */
  ghost predicate Joined(g: Gamma, equiv: EquivId, x: Row, a: Row, ca: nat, b: Row, cb: nat) {
    KeyMatch(g, equiv, a, ca, b, cb) && x == a + b
  }

  lemma {:induction false} JoinRowsSpec(g: Gamma, equiv: EquivId, left: seq<Row>, ca: nat, right: seq<Row>, cb: nat)
    ensures forall x :: x in JoinRows(g, equiv, left, ca, right, cb)
                        <==> exists a, b :: a in left && b in right && Joined(g, equiv, x, a, ca, b, cb)
  {
    if left != [] {
      var init, last := left[..|left| - 1], left[|left| - 1];
      assert left == init + [last];
      JoinRowsSpec(g, equiv, init, ca, right, cb);
      JoinOneSpec(g, equiv, last, ca, right, cb);
      forall x
        ensures x in JoinRows(g, equiv, left, ca, right, cb)
                <==> exists a, b :: a in left && b in right && Joined(g, equiv, x, a, ca, b, cb)
      {
        if x in JoinOne(g, equiv, last, ca, right, cb) {
          var b :| b in right && KeyMatch(g, equiv, last, ca, b, cb) && x == last + b;
          assert last in left && Joined(g, equiv, x, last, ca, b, cb);
        }
        if a, b :| a in left && b in right && Joined(g, equiv, x, a, ca, b, cb) {
          if a in init { assert x in JoinRows(g, equiv, init, ca, right, cb); }
        }
      }
    }
  }

  lemma ProjectRowsSpec(rows: seq<Row>, columns: seq<nat>)
    ensures forall x :: x in ProjectRows(rows, columns) <==> exists r :: r in rows && x == ProjectRow(r, columns)
  {
    var p := ProjectRows(rows, columns);
    forall r | r in rows ensures ProjectRow(r, columns) in p {
      var i :| 0 <= i < |rows| && rows[i] == r;
      assert p[i] == ProjectRow(r, columns);
    }
  }

  // ----- Order -----

  /** Filtering keeps the rows in order: what it keeps of a list is what it keeps of each part. */
  lemma {:induction false} FilterKeepsOrder(g: Gamma, test: RowTest, a: seq<Row>, b: seq<Row>)
    ensures FilterRows(g, test, a + b) == FilterRows(g, test, a) + FilterRows(g, test, b)
  {
    if b == [] {
      assert a + b == a;
    } else {
      hide Keeps;
      var n := |b| - 1;
      assert (a + b)[..|a| + n] == a + b[..n];
      FilterKeepsOrder(g, test, a, b[..n]);
    }
  }

  lemma {:induction false} JoinOneKeepsOrder(g: Gamma, equiv: EquivId, a: Row, ca: nat, x: seq<Row>, y: seq<Row>, cb: nat)
    ensures JoinOne(g, equiv, a, ca, x + y, cb) == JoinOne(g, equiv, a, ca, x, cb) + JoinOne(g, equiv, a, ca, y, cb)
  {
    if y == [] {
      assert x + y == x;
    } else {
      hide KeyMatch;
      var n := |y| - 1;
      assert (x + y)[..|x| + n] == x + y[..n];
      JoinOneKeepsOrder(g, equiv, a, ca, x, y[..n], cb);
    }
  }

  /** The joined rows come in the order of the left rows, then of the right ones, one for every matching pair. */
  lemma {:induction false} JoinKeepsOrder(g: Gamma, equiv: EquivId, a: Row, ca: nat, b: Row, cb: nat,
                                          x: seq<Row>, y: seq<Row>, right: seq<Row>)
    ensures JoinRows(g, equiv, x + y, ca, right, cb) == JoinRows(g, equiv, x, ca, right, cb) + JoinRows(g, equiv, y, ca, right, cb)
    ensures JoinRows(g, equiv, [a], ca, x + y, cb) == JoinRows(g, equiv, [a], ca, x, cb) + JoinRows(g, equiv, [a], ca, y, cb)
    ensures JoinRows(g, equiv, [a], ca, [b], cb) == if Joined(g, equiv, a + b, a, ca, b, cb) then [a + b] else []
    decreases |y|
  {
    JoinOneKeepsOrder(g, equiv, a, ca, x, y, cb);
    if y == [] {
      assert x + y == x;
    } else {
      hide KeyMatch, JoinOne;
      var n := |y| - 1;
      assert (x + y)[..|x| + n] == x + y[..n];
      JoinKeepsOrder(g, equiv, a, ca, b, cb, x, y[..n], right);
    }
  }

  /** Rows added at the end never move or replace a row that deduplication kept. */
  lemma {:induction false} DistinctKeepsOrder(g: Gamma, equivs: seq<EquivId>, a: seq<Row>, b: seq<Row>)
    ensures DistinctRows(g, equivs, a) <= DistinctRows(g, equivs, a + b)
  {
    if b == [] {
      assert a + b == a;
    } else {
      hide RowKey;
      var n := |b| - 1;
      assert (a + b)[..|a| + n] == a + b[..n];
      DistinctKeepsOrder(g, equivs, a, b[..n]);
    }
  }

  /** A row that has the key of no row before it. */
  ghost predicate IsFirst(g: Gamma, equivs: seq<EquivId>, rows: seq<Row>, i: nat)
    requires i < |rows|
  {
    forall j | 0 <= j < i :: RowKey(g, equivs, rows[j]) != RowKey(g, equivs, rows[i])
  }

  /** Deduplication keeps the first row of every class. */
  lemma {:induction false} FirstIsKept(g: Gamma, equivs: seq<EquivId>, rows: seq<Row>, row: Row)
    ensures row in DistinctRows(g, equivs, rows) <==> exists i | 0 <= i < |rows| :: rows[i] == row && IsFirst(g, equivs, rows, i)
  {
    if rows != [] {
      hide RowKey;
      var n := |rows| - 1;
      var init, last := rows[..n], rows[n];
      FirstIsKept(g, equivs, init, row);
      KeysOfKept(g, equivs, init, RowKey(g, equivs, last));
      forall i | 0 <= i < n ensures IsFirst(g, equivs, rows, i) <==> IsFirst(g, equivs, init, i) {
        assert forall j | 0 <= j <= i :: init[j] == rows[j];
      }
      assert IsFirst(g, equivs, rows, n) <==> !exists r | r in DistinctRows(g, equivs, init) :: RowKey(g, equivs, r) == RowKey(g, equivs, last);
    }
  }

  lemma KeysOfKept(g: Gamma, equivs: seq<EquivId>, rows: seq<Row>, key: seq<Value>)
    ensures (exists r | r in DistinctRows(g, equivs, rows) :: RowKey(g, equivs, r) == key)
       <==> exists j | 0 <= j < |rows| :: RowKey(g, equivs, rows[j]) == key
  {
    hide RowKey, DistinctRows;
    DistinctRowsSpec(g, equivs, rows);
    if j :| 0 <= j < |rows| && RowKey(g, equivs, rows[j]) == key {
      var d := Representative(g, equivs, rows, rows[j]);
    }
    if r :| r in DistinctRows(g, equivs, rows) && RowKey(g, equivs, r) == key {
      assert r in rows;
    }
  }
}
