/** Lowering of typed object predicates to relational expressions, and what the predicates mean on a row. */
module PredicateCompiler {
  import opened Wrappers
  import opened RelationalAlgebra

  /** Handle of a declared relation. */
  datatype Relation = Relation(id: RelationId, equivs: seq<EquivId>)

  /** The object type a reference or relationship leads to. */
  datatype ObjectType = ObjectType(relation: Relation, identity: Option<nat>)

  datatype Hop = Hop(
    sourceRelation: RelationId, sourceWidth: nat, sourceColumn: nat, sourceEquivs: seq<EquivId>,
    targetIdentity: nat, equiv: EquivId)

  datatype LowerError = InvalidPlan | InvalidSchema

  datatype ManyField = ManyField(
    sourceWidth: nat, sourceIdentity: nat, targetIdentity: nat, edges: RelationId,
    sourceEquiv: EquivId, targetEquiv: EquivId, error: Option<LowerError>)

  datatype ManyMode = AnyOf | NoneOf | AllOf

  datatype CountCondition =
    | CountEq(expected: int)
    | CountNe(expected: int)
    | CountOrder(expected: int, comparison: Comparison)
    | CountBetween(lower: int, upper: int)

  datatype Pred =
    | EqConst(relation: RelationId, column: nat, equiv: EquivId, value: Value)
    | EqColumns(relation: RelationId, rightRelation: RelationId, left: nat, right: nat, equiv: EquivId)
    | Order(relation: RelationId, column: nat, ordering: Option<OrderId>, value: Value, comparison: Comparison)
    | Between(relation: RelationId, column: nat, ordering: Option<OrderId>, lower: Value, upper: Value)
    | And(first: Pred, second: Pred)
    | Or(first: Pred, second: Pred)
    | Not(inner: Pred)
    | RefTo(sourceWidth: nat, sourceColumn: nat, equiv: EquivId, target: ObjectType, where: Pred)
    | OptionalIsSome(relation: RelationId, column: nat, equiv: EquivId)
    | Path(hops: seq<Hop>, target: ObjectType, where: Pred)
    | Many(field: ManyField, mode: ManyMode, target: ObjectType, where: Pred)
    | ManyCount(field: ManyField, condition: CountCondition)

  // ----- Lowering -----

  function Columns(width: nat): seq<nat> {
    seq(width, i requires 0 <= i => i)
  }

  /** The left rows that have a matching right row, each once. */
  function SemiJoin(source: RelExpr, selected: RelExpr, left: nat, right: nat, equiv: EquivId,
                    width: nat, equivs: seq<EquivId>): RelExpr
  {
    Distinct(Project(JoinEq(source, selected, left, right, equiv), Columns(width)), equivs)
  }

  /** The remaining iterations of the reversed hop loop, with `k` hops still to process. */
  function LowerHops(hops: seq<Hop>, k: nat, input: RelExpr, selected: RelExpr): RelExpr
    requires k <= |hops|
  {
    if k == 0 then selected
    else
      var hop := hops[k - 1];
      var source := if k == 1 then input else Scan(hop.sourceRelation);
      LowerHops(hops, k - 1, input,
                SemiJoin(source, selected, hop.sourceColumn, hop.targetIdentity, hop.equiv,
                         hop.sourceWidth, hop.sourceEquivs))
  }

  function MatchingSources(field: ManyField, target: ObjectType, selected: RelExpr, matching: bool): RelExpr {
    var kept := if matching then selected else Difference(Scan(target.relation.id), selected);
    Project(JoinEq(Scan(field.edges), kept, 1, field.targetIdentity, field.targetEquiv), [0])
  }

  predicate MatchesZero(condition: CountCondition) {
    match condition
    case CountEq(expected) => expected == 0
    case CountNe(expected) => expected != 0
    case CountOrder(expected, comparison) =>
      (match comparison
       case Less => 0 < expected
       case LessOrEqual => 0 <= expected
       case Greater => 0 > expected
       case GreaterOrEqual => 0 >= expected)
    case CountBetween(lower, upper) => lower <= 0 <= upper
  }

  function MatchingPositive(condition: CountCondition, grouped: RelExpr): RelExpr {
    match condition
    case CountEq(expected) => FilterEqConst(grouped, 1, I64(expected), COUNT_EQUIVALENCE)
    case CountNe(expected) => Difference(grouped, FilterEqConst(grouped, 1, I64(expected), COUNT_EQUIVALENCE))
    case CountOrder(expected, comparison) =>
      FilterOrderConst(grouped, 1, I64(expected), COUNT_ORDERING, comparison)
    case CountBetween(lower, upper) =>
      FilterOrderConst(FilterOrderConst(grouped, 1, I64(lower), COUNT_ORDERING, GreaterOrEqual),
                       1, I64(upper), COUNT_ORDERING, LessOrEqual)
  }

  function Complement(comparison: Comparison): Comparison {
    match comparison
    case Less => GreaterOrEqual
    case LessOrEqual => Greater
    case Greater => LessOrEqual
    case GreaterOrEqual => Less
  }

  /** Only called for conditions that zero meets, so a non-zero equality cannot arrive. */
  function NonmatchingPositive(condition: CountCondition, grouped: RelExpr): RelExpr
    requires MatchesZero(condition)
  {
    match condition
    case CountEq(expected) => assert expected == 0; grouped
    case CountNe(expected) => FilterEqConst(grouped, 1, I64(expected), COUNT_EQUIVALENCE)
    case CountOrder(expected, comparison) =>
      FilterOrderConst(grouped, 1, I64(expected), COUNT_ORDERING, Complement(comparison))
    case CountBetween(_, upper) => FilterOrderConst(grouped, 1, I64(upper), COUNT_ORDERING, Greater)
  }

  function Grouped(field: ManyField): RelExpr {
    GroupCount(Scan(field.edges), 0, field.sourceEquiv, COUNT_EQUIVALENCE)
  }

  function LowerCount(field: ManyField, condition: CountCondition, input: RelExpr, root: Relation): RelExpr {
    if MatchesZero(condition) then
      AntiJoin(input, NonmatchingPositive(condition, Grouped(field)), field.sourceIdentity, 0, field.sourceEquiv)
    else
      SemiJoin(input, MatchingPositive(condition, Grouped(field)), field.sourceIdentity, 0, field.sourceEquiv,
               field.sourceWidth, root.equivs)
  }

  function Lower(p: Pred, input: RelExpr, root: Relation): (r: Result<RelExpr, LowerError>)
    decreases p
  {
    match p
    case EqConst(relation, column, equiv, value) =>
      if relation != root.id then Err(InvalidPlan)
      else Ok(FilterEqConst(input, column, value, equiv))
    case EqColumns(relation, rightRelation, left, right, equiv) =>
      if relation != root.id || rightRelation != root.id then Err(InvalidPlan)
      else Ok(FilterEqColumns(input, left, right, equiv))
    case Order(relation, column, ordering, value, comparison) =>
      if relation != root.id then Err(InvalidPlan)
      else if ordering.None? then Err(InvalidSchema)
      else Ok(FilterOrderConst(input, column, value, ordering.value, comparison))
    case Between(relation, column, ordering, lower, upper) =>
      if relation != root.id then Err(InvalidPlan)
      else if ordering.None? then Err(InvalidSchema)
      else
        Ok(FilterOrderConst(FilterOrderConst(input, column, lower, ordering.value, GreaterOrEqual),
                            column, upper, ordering.value, LessOrEqual))
    case And(first, second) =>
      var kept :- Lower(first, input, root);
      Lower(second, kept, root)
    case Or(first, second) =>
      var left :- Lower(first, input, root);
      var right :- Lower(second, input, root);
      Ok(Union(left, right))
    case Not(inner) =>
      var selected :- Lower(inner, input, root);
      Ok(Difference(input, selected))
    case RefTo(sourceWidth, sourceColumn, equiv, target, where) =>
      if |root.equivs| != sourceWidth then Err(InvalidPlan)
      else if target.identity.None? then Err(InvalidSchema)
      else
        var selected :- Lower(where, Scan(target.relation.id), target.relation);
        Ok(SemiJoin(input, selected, sourceColumn, target.identity.value, equiv, sourceWidth, root.equivs))
    case OptionalIsSome(relation, column, equiv) =>
      if relation != root.id then Err(InvalidPlan)
      else Ok(Difference(input, FilterEqConst(input, column, OptionNone, equiv)))
    case Path(hops, target, where) =>
      if hops == [] then Err(InvalidPlan)
      else if hops[0].sourceRelation != root.id || hops[0].sourceWidth != |root.equivs| then Err(InvalidPlan)
      else
        var selected :- Lower(where, Scan(target.relation.id), target.relation);
        Ok(LowerHops(hops, |hops|, input, selected))
    case Many(field, mode, target, where) =>
      if field.error.Some? then Err(field.error.value)
      else if |root.equivs| != field.sourceWidth then Err(InvalidPlan)
      else
        var selected :- Lower(where, Scan(target.relation.id), target.relation);
        var sources := MatchingSources(field, target, selected, !mode.AllOf?);
        Ok(if mode.AnyOf? then
             SemiJoin(input, sources, field.sourceIdentity, 0, field.sourceEquiv, field.sourceWidth, root.equivs)
           else AntiJoin(input, sources, field.sourceIdentity, 0, field.sourceEquiv))
    case ManyCount(field, condition) =>
      if field.error.Some? then Err(field.error.value)
      else Ok(LowerCount(field, condition, input, root))
  }

  /** The path loop as it runs: hops in reverse, the caller's input consumed at the first hop. */
  method LowerPathLoop(hops: seq<Hop>, input: RelExpr, target: RelExpr) returns (selected: RelExpr)
    requires hops != []
    ensures selected == LowerHops(hops, |hops|, input, target)
  {
    selected := target;
    var rootInput := Some(input);
    var index := |hops|;
    while index > 0
      invariant 0 <= index <= |hops|
      invariant index > 0 ==> rootInput == Some(input)
      invariant LowerHops(hops, index, input, selected) == LowerHops(hops, |hops|, input, target)
    {
      index := index - 1;
      var hop := hops[index];
      var source;
      if index == 0 {
        source := rootInput.value;
        rootInput := None;
      } else {
        source := Scan(hop.sourceRelation);
      }
      selected := SemiJoin(source, selected, hop.sourceColumn, hop.targetIdentity, hop.equiv,
                           hop.sourceWidth, hop.sourceEquivs);
    }
  }

  // ----- Direct meaning of a predicate on one row -----

  function RowsOf(db: Database, relation: RelationId): seq<Row> {
    if relation in db then db[relation].rows else []
  }

  predicate Meets(condition: CountCondition, n: int) {
    match condition
    case CountEq(expected) => n == expected
    case CountNe(expected) => n != expected
    case CountOrder(expected, comparison) =>
      (match comparison
       case Less => n < expected
       case LessOrEqual => n <= expected
       case Greater => n > expected
       case GreaterOrEqual => n >= expected)
    case CountBetween(lower, upper) => lower <= n <= upper
  }

  /** Edge `e` relates the source row to the target row. */
  ghost predicate Related(g: Gamma, field: ManyField, row: Row, e: Row, t: Row) {
    KeyMatch(g, field.sourceEquiv, row, field.sourceIdentity, e, 0)
    && KeyMatch(g, field.targetEquiv, e, 1, t, field.targetIdentity)
  }

  /** The positions of the stored edges that start at the row. */
  function EdgesFrom(db: Database, g: Gamma, field: ManyField, row: Row): set<int> {
    var edges := RowsOf(db, field.edges);
    set i | 0 <= i < |edges| && KeyMatch(g, field.sourceEquiv, row, field.sourceIdentity, edges[i], 0)
  }

  function EdgeCount(db: Database, g: Gamma, field: ManyField, row: Row): nat {
    |EdgesFrom(db, g, field, row)|
  }

  ghost predicate Holds(p: Pred, row: Row, db: Database, g: Gamma)
    decreases p, 0
  {
    match p
    case EqConst(_, column, equiv, value) => column < |row| && Key(g, equiv, row[column]) == Key(g, equiv, value)
    case EqColumns(_, _, left, right, equiv) => KeyMatch(g, equiv, row, left, row, right)
    case Order(_, column, ordering, value, comparison) =>
      ordering.Some? && column < |row| && Passes(Compare(g, ordering.value, row[column], value), comparison)
    case Between(_, column, ordering, lower, upper) =>
      ordering.Some? && column < |row|
      && Compare(g, ordering.value, row[column], lower) >= 0 && Compare(g, ordering.value, row[column], upper) <= 0
    case And(first, second) => Holds(first, row, db, g) && Holds(second, row, db, g)
    case Or(first, second) => Holds(first, row, db, g) || Holds(second, row, db, g)
    case Not(inner) => !Holds(inner, row, db, g)
    case RefTo(_, sourceColumn, equiv, target, where) =>
      target.identity.Some?
      && exists t :: t in RowsOf(db, target.relation.id)
                     && KeyMatch(g, equiv, row, sourceColumn, t, target.identity.value) && Holds(where, t, db, g)
    case OptionalIsSome(_, column, equiv) =>
      column < |row| && Key(g, equiv, row[column]) != Key(g, equiv, OptionNone)
    case Path(hops, target, where) => Reaches(hops, 0, target, where, row, db, g)
    case Many(field, mode, target, where) =>
      (match mode
       case AnyOf => exists e, t :: e in RowsOf(db, field.edges) && t in RowsOf(db, target.relation.id)
                                    && Related(g, field, row, e, t) && Holds(where, t, db, g)
       case NoneOf => forall e, t | e in RowsOf(db, field.edges) && t in RowsOf(db, target.relation.id)
                                    && Related(g, field, row, e, t) :: !Holds(where, t, db, g)
       case AllOf => forall e, t | e in RowsOf(db, field.edges) && t in RowsOf(db, target.relation.id)
                                   && Related(g, field, row, e, t) :: Holds(where, t, db, g))
    case ManyCount(field, condition) => Meets(condition, EdgeCount(db, g, field, row))
  }

  /** Relation that hop `k` starts from; past the last hop, the target relation. */
  function Level(hops: seq<Hop>, k: nat, target: ObjectType): RelationId {
    if k < |hops| then hops[k].sourceRelation else target.relation.id
  }

  /** From `row`, standing before hop `k`, the remaining hops reach a row satisfying `where`. */
  ghost predicate Reaches(hops: seq<Hop>, k: nat, target: ObjectType, where: Pred, row: Row, db: Database, g: Gamma)
    requires k <= |hops|
    decreases where, |hops| - k + 1
  {
    if k == |hops| then Holds(where, row, db, g)
    else
      exists next :: next in RowsOf(db, Level(hops, k + 1, target))
                     && KeyMatch(g, hops[k].equiv, row, hops[k].sourceColumn, next, hops[k].targetIdentity)
                     && Reaches(hops, k + 1, target, where, next, db, g)
  }

  // ----- Handles that were built from the schema of the database -----

  ghost predicate HandleOk(db: Database, relation: Relation) {
    relation.id in db && db[relation.id].equivs == relation.equivs
  }

  ghost predicate ColumnOk(db: Database, relation: RelationId, column: nat) {
    relation in db ==> column < |db[relation].equivs|
  }

  /** Values equal under `fine` are equal under `coarse`. */
  ghost predicate Refines(g: Gamma, fine: EquivId, coarse: EquivId) {
    forall a, b :: Key(g, fine, a) == Key(g, fine, b) ==> Key(g, coarse, a) == Key(g, coarse, b)
  }

  ghost predicate HopOk(db: Database, hops: seq<Hop>, k: nat, target: ObjectType)
    requires k < |hops|
  {
    var hop := hops[k];
    && hop.sourceRelation in db && db[hop.sourceRelation].equivs == hop.sourceEquivs
    && |hop.sourceEquivs| == hop.sourceWidth
    && hop.sourceColumn < hop.sourceWidth
    && Level(hops, k + 1, target) in db
    && hop.targetIdentity < |db[Level(hops, k + 1, target)].equivs|
  }

  ghost predicate EdgesOk(db: Database, g: Gamma, field: ManyField) {
    && field.edges in db && |db[field.edges].equivs| == 2
    && Refines(g, db[field.edges].equivs[0], field.sourceEquiv)
    && field.sourceIdentity < field.sourceWidth
  }

  ghost predicate WellFormed(p: Pred, root: Relation, db: Database, g: Gamma)
    decreases p
  {
    match p
    case EqConst(relation, column, _, _) => ColumnOk(db, relation, column)
    case EqColumns(relation, _, left, right, _) => ColumnOk(db, relation, left) && ColumnOk(db, relation, right)
    case Order(relation, column, _, _, _) => ColumnOk(db, relation, column)
    case Between(relation, column, _, _, _) => ColumnOk(db, relation, column)
    case And(first, second) => WellFormed(first, root, db, g) && WellFormed(second, root, db, g)
    case Or(first, second) => WellFormed(first, root, db, g) && WellFormed(second, root, db, g)
    case Not(inner) => WellFormed(inner, root, db, g)
    case RefTo(sourceWidth, sourceColumn, _, target, where) =>
      && sourceColumn < sourceWidth && HandleOk(db, target.relation)
      && (target.identity.Some? ==> target.identity.value < |target.relation.equivs|)
      && WellFormed(where, target.relation, db, g)
    case OptionalIsSome(relation, column, _) => ColumnOk(db, relation, column)
    case Path(hops, target, where) =>
      && HandleOk(db, target.relation) && (forall k | 0 <= k < |hops| :: HopOk(db, hops, k, target))
      && WellFormed(where, target.relation, db, g)
    case Many(field, _, target, where) =>
      && EdgesOk(db, g, field) && HandleOk(db, target.relation)
      && field.targetIdentity < |target.relation.equivs|
      && WellFormed(where, target.relation, db, g)
    case ManyCount(field, _) => EdgesOk(db, g, field) && field.sourceWidth == |root.equivs|
  }
}
