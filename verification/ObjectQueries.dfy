/** The fluent query over one relation, built by successive filters, and further
    consequences of the correctness of lowering. */
module ObjectQueries {
  import opened Wrappers
  import opened RelationalAlgebra
  import opened PredicateCompiler
  import opened PredicateAcceptance
  import opened TableLaws
  import opened PredicateCorrectness

  // ----- Reference paths as chains of rows -----

  /** Row `a`, before hop `k`, refers by that hop to the stored row `b`. */
  ghost predicate Refers(hops: seq<Hop>, k: nat, target: ObjectType, a: Row, b: Row, db: Database, g: Gamma)
    requires k < |hops|
  {
    b in RowsOf(db, Level(hops, k + 1, target))
    && KeyMatch(g, hops[k].equiv, a, hops[k].sourceColumn, b, hops[k].targetIdentity)
  }

  /** `chain` starts at `row` before hop `k`, and each of its rows refers to the next. */
  ghost predicate IsChain(chain: seq<Row>, hops: seq<Hop>, k: nat, target: ObjectType, row: Row, db: Database, g: Gamma)
    requires k <= |hops|
  {
    |chain| == |hops| - k + 1 && chain[0] == row && Links(chain, hops, k, target, db, g)
  }

  ghost predicate Links(chain: seq<Row>, hops: seq<Hop>, k: nat, target: ObjectType, db: Database, g: Gamma)
    requires k <= |hops| && |chain| == |hops| - k + 1
  {
    forall i, j | 0 <= i && j == i + 1 < |chain| :: Refers(hops, k + i, target, chain[i], chain[j], db, g)
  }

  lemma ChainTail(chain: seq<Row>, hops: seq<Hop>, k: nat, target: ObjectType, row: Row, db: Database, g: Gamma)
    requires k < |hops| && |chain| == |hops| - k + 1
    ensures IsChain(chain, hops, k, target, row, db, g)
            <==> chain[0] == row && Refers(hops, k, target, row, chain[1], db, g)
                 && IsChain(chain[1..], hops, k + 1, target, chain[1], db, g)
  {
    hide Refers;
    var rest := chain[1..];
    if IsChain(chain, hops, k, target, row, db, g) {
      assert Refers(hops, k + 0, target, chain[0], chain[1], db, g);
      forall i, j | 0 <= i && j == i + 1 < |rest| ensures Refers(hops, k + 1 + i, target, rest[i], rest[j], db, g) {
        var i', j' := i + 1, j + 1;
        assert Refers(hops, k + i', target, chain[i'], chain[j'], db, g);
      }
    }
    if chain[0] == row && Refers(hops, k, target, row, chain[1], db, g) && IsChain(rest, hops, k + 1, target, chain[1], db, g) {
      forall i, j | 0 <= i && j == i + 1 < |chain| ensures Refers(hops, k + i, target, chain[i], chain[j], db, g) {
        if i > 0 {
          var i', j' := i - 1, j - 1;
          assert Refers(hops, k + 1 + i', target, rest[i'], rest[j'], db, g);
        }
      }
    }
  }

  lemma ReachesStep(hops: seq<Hop>, k: nat, target: ObjectType, where: Pred, row: Row, db: Database, g: Gamma)
    requires k < |hops|
    ensures Reaches(hops, k, target, where, row, db, g)
            <==> exists next :: Refers(hops, k, target, row, next, db, g) && Reaches(hops, k + 1, target, where, next, db, g)
  {
    hide Holds, KeyMatch;
    if Reaches(hops, k, target, where, row, db, g) {
      var next :| next in RowsOf(db, Level(hops, k + 1, target))
                  && KeyMatch(g, hops[k].equiv, row, hops[k].sourceColumn, next, hops[k].targetIdentity)
                  && Reaches(hops, k + 1, target, where, next, db, g);
      assert Refers(hops, k, target, row, next, db, g);
    }
  }

  lemma ReachesHere(hops: seq<Hop>, target: ObjectType, where: Pred, row: Row, db: Database, g: Gamma)
    ensures Reaches(hops, |hops|, target, where, row, db, g) <==> Holds(where, row, db, g)
    ensures Links([row], hops, |hops|, target, db, g)
  {
    hide Holds;
  }

  lemma {:induction false} ReachesByChain(hops: seq<Hop>, k: nat, target: ObjectType, where: Pred, row: Row, db: Database, g: Gamma)
    returns (chain: seq<Row>)
    requires k <= |hops| && Reaches(hops, k, target, where, row, db, g)
    ensures IsChain(chain, hops, k, target, row, db, g) && Holds(where, chain[|hops| - k], db, g)
    decreases |hops| - k
  {
    hide Holds, Reaches, Refers, Links;
    if k == |hops| {
      chain := [row];
      ReachesHere(hops, target, where, row, db, g);
    } else {
      ReachesStep(hops, k, target, where, row, db, g);
      var next :| Refers(hops, k, target, row, next, db, g) && Reaches(hops, k + 1, target, where, next, db, g);
      var rest := ReachesByChain(hops, k + 1, target, where, next, db, g);
      chain := [row] + rest;
      assert chain[1..] == rest;
      ChainTail(chain, hops, k, target, row, db, g);
    }
  }

  lemma {:induction false} ChainReaches(chain: seq<Row>, hops: seq<Hop>, k: nat, target: ObjectType, where: Pred, row: Row,
                                        db: Database, g: Gamma)
    requires k <= |hops| && IsChain(chain, hops, k, target, row, db, g) && Holds(where, chain[|hops| - k], db, g)
    ensures Reaches(hops, k, target, where, row, db, g)
    decreases |hops| - k
  {
    hide Holds, Reaches, Refers, Links;
    if k == |hops| {
      ReachesHere(hops, target, where, row, db, g);
    } else {
      ReachesStep(hops, k, target, where, row, db, g);
      ChainTail(chain, hops, k, target, row, db, g);
      assert chain[1..][|hops| - (k + 1)] == chain[|hops| - k];
      ChainReaches(chain[1..], hops, k + 1, target, where, chain[1], db, g);
    }
  }

  lemma ReachesIsChain(hops: seq<Hop>, k: nat, target: ObjectType, where: Pred, row: Row, db: Database, g: Gamma)
    requires k <= |hops|
    ensures Reaches(hops, k, target, where, row, db, g)
            <==> exists chain :: IsChain(chain, hops, k, target, row, db, g) && Holds(where, chain[|hops| - k], db, g)
  {
    hide Holds, Reaches, Links;
    if Reaches(hops, k, target, where, row, db, g) {
      var chain := ReachesByChain(hops, k, target, where, row, db, g);
    }
    if chain :| IsChain(chain, hops, k, target, row, db, g) && Holds(where, chain[|hops| - k], db, g) {
      ChainReaches(chain, hops, k, target, where, row, db, g);
    }
  }

  /** The lowered path keeps a row iff a chain of stored rows, each referring to the next, leads
      from it to a row satisfying the target predicate. */
  lemma PathKeepsChains(p: Pred, input: RelExpr, root: Relation, t: Table, row: Row, db: Database, g: Gamma)
    requires p.Path? && DatabaseOk(g, db) && HandleOk(db, root) && WellFormed(p, root, db, g)
    requires Eval(input, db, g) == Ok(t) && TableOk(g, t) && t.equivs == root.equivs
    requires Acceptable(p, root)
    ensures Lower(p, input, root).Ok?
    ensures var r := Eval(Lower(p, input, root).value, db, g);
            r.Ok? && (row in r.value.rows
                      <==> row in t.rows && exists chain :: IsChain(chain, p.hops, 0, p.target, row, db, g)
                                                            && Holds(p.where, chain[|p.hops|], db, g))
  {
    hide KeyDistinct, Eval, Lower, IsChain;
    LowerCorrect(p, input, root, t, db, g);
    ReachesIsChain(p.hops, 0, p.target, p.where, row, db, g);
  }

  // ----- A to-many count on a root of any width -----

  /** Unlike the other to-many predicates, the count predicate is accepted on a root of any width.
      Its query then answers exactly when the root has the identity column and either the width the field was
      declared for or a condition that zero meets; otherwise it fails. */
  lemma CountOnAnyRoot(field: ManyField, condition: CountCondition, input: RelExpr, root: Relation, t: Table,
                       db: Database, g: Gamma)
    requires DatabaseOk(g, db) && EdgesOk(db, g, field) && field.error.None?
    requires Eval(input, db, g) == Ok(t) && TableOk(g, t) && t.equivs == root.equivs
    ensures Lower(ManyCount(field, condition), input, root) == Ok(LowerCount(field, condition, input, root))
    ensures var q := LowerCount(field, condition, input, root);
            && (Eval(q, db, g).Ok?
                <==> field.sourceIdentity < |root.equivs| && (field.sourceWidth == |root.equivs| || Meets(condition, 0)))
            && (Eval(q, db, g).Ok? ==> Answers(q, t, ManyCount(field, condition), db, g))
  {
    hide KeyDistinct, Eval, EdgesOk, Holds, NonmatchingPositive, MatchingPositive;
    assert MatchesZero(condition) <==> Meets(condition, 0);
    var width := |root.equivs|;
    if field.sourceIdentity >= width {
      JoinOutOfRange(field, condition, input, root, t, db, g);
    } else if field.sourceWidth == width {
      LowerCountCorrect(field, condition, input, root, t, db, g);
    } else if MatchesZero(condition) {
      var other := field.(sourceWidth := width);
      EdgesAtWidth(field, width, db, g);
      LowerCountCorrect(other, condition, input, root, t, db, g);
      CountIgnoresWidth(field, width, condition, db, g);
    } else {
      var join := JoinEq(input, MatchingPositive(condition, Grouped(field)), field.sourceIdentity, 0, field.sourceEquiv);
      ProjectArity(join, field.sourceWidth, root.equivs, db, g);
    }
  }

  /** A root one column narrower than the field was declared for: the predicate is accepted, its query fails. */
  lemma NarrowRootFails(g: Gamma)
    ensures var db := map[1 := Table([], [0]), 2 := Table([], [0, 0])];
            var field, root := ManyField(2, 0, 0, 2, 0, 0, None), Relation(1, [0]);
            var q := Lower(ManyCount(field, CountEq(1)), Scan(1), root);
            && DatabaseOk(g, db) && EdgesOk(db, g, field) && HandleOk(db, root)
            && q.Ok? && Eval(q.value, db, g).Err?
  {
    var db := map[1 := Table([], [0]), 2 := Table([], [0, 0])];
    ScanEval(1, db, g);
    CountOnAnyRoot(ManyField(2, 0, 0, 2, 0, 0, None), CountEq(1), Scan(1), Relation(1, [0]), db[1], db, g);
  }

  lemma JoinOutOfRange(field: ManyField, condition: CountCondition, input: RelExpr, root: Relation, t: Table,
                       db: Database, g: Gamma)
    requires Eval(input, db, g) == Ok(t) && field.sourceIdentity >= |t.equivs|
    ensures Eval(LowerCount(field, condition, input, root), db, g).Err?
  {
    hide Eval, MatchingPositive, NonmatchingPositive, Columns;
    if MatchesZero(condition) {
      ColumnBeyond(input, NonmatchingPositive(condition, Grouped(field)), t, field.sourceIdentity, field.sourceEquiv, db, g);
    } else {
      var accepted := MatchingPositive(condition, Grouped(field));
      ColumnBeyond(input, accepted, t, field.sourceIdentity, field.sourceEquiv, db, g);
      ErrorPasses(JoinEq(input, accepted, field.sourceIdentity, 0, field.sourceEquiv), Columns(field.sourceWidth), root.equivs, db, g);
    }
  }

  lemma ColumnBeyond(left: RelExpr, right: RelExpr, l: Table, column: nat, equiv: EquivId, db: Database, g: Gamma)
    requires Eval(left, db, g) == Ok(l) && column >= |l.equivs|
    ensures Eval(JoinEq(left, right, column, 0, equiv), db, g).Err?
    ensures Eval(AntiJoin(left, right, column, 0, equiv), db, g).Err?
  {
  }

  lemma ErrorPasses(q: RelExpr, columns: seq<nat>, equivs: seq<EquivId>, db: Database, g: Gamma)
    requires Eval(q, db, g).Err?
    ensures Eval(Distinct(Project(q, columns), equivs), db, g).Err?
  {
    assert Eval(Project(q, columns), db, g).Err?;
  }

  lemma EdgesAtWidth(field: ManyField, width: nat, db: Database, g: Gamma)
    requires EdgesOk(db, g, field) && field.sourceIdentity < width
    ensures EdgesOk(db, g, field.(sourceWidth := width))
  {
  }

  lemma CountIgnoresWidth(field: ManyField, width: nat, condition: CountCondition, db: Database, g: Gamma)
    ensures forall r :: Holds(ManyCount(field.(sourceWidth := width), condition), r, db, g)
                        <==> Holds(ManyCount(field, condition), r, db, g)
  {
  }

  lemma ProjectArity(q: RelExpr, width: nat, equivs: seq<EquivId>, db: Database, g: Gamma)
    requires width != |equivs|
    ensures Eval(Distinct(Project(q, Columns(width)), equivs), db, g).Err?
  {
    var r := Eval(Project(q, Columns(width)), db, g);
    assert r.Ok? ==> |r.value.equivs| == width;
  }

  // ----- Successive filters -----

  datatype QueryState = QueryState(inner: RelExpr, error: Option<LowerError>)

  function FilterStep(s: QueryState, root: Relation, p: Pred): QueryState {
    if s.error.Some? then s
    else
      match Lower(p, s.inner, root)
      case Ok(q) => QueryState(q, None)
      case Err(e) => QueryState(s.inner, Some(e))
  }

  /** The query that starts from `base` and applies the filters in turn. */
  function FilterRun(root: Relation, base: RelExpr, preds: seq<Pred>): QueryState {
    if preds == [] then QueryState(base, None)
    else FilterStep(FilterRun(root, base, preds[..|preds| - 1]), root, preds[|preds| - 1])
  }

  class RelationQuery {
    const relation: Relation
    var inner: RelExpr
    var error: Option<LowerError>

    constructor (relation: Relation)
      ensures this.relation == relation && State() == FilterRun(relation, Scan(relation.id), [])
    {
      this.relation := relation;
      inner := Scan(relation.id);
      error := None;
    }

    /** A query that starts from another selection of the relation's rows. */
    constructor FromRaw(relation: Relation, base: RelExpr)
      ensures this.relation == relation && State() == FilterRun(relation, base, [])
    {
      this.relation := relation;
      inner := base;
      error := None;
    }

    function State(): QueryState
      reads this
    {
      QueryState(inner, error)
    }

    /** After any number of filters the query is the run of all of them. */
    method Filter(p: Pred, ghost base: RelExpr, ghost before: seq<Pred>)
      requires State() == FilterRun(relation, base, before)
      modifies this
      ensures State() == FilterRun(relation, base, before + [p])
    {
      assert (before + [p])[..|before|] == before;
      if error.Some? {
        return;
      }
      var lowered := Lower(p, inner, relation);
      match lowered {
        case Ok(q) => inner := q;
        case Err(e) => error := Some(e);
      }
    }
  }

  /** Whether and how lowering fails does not depend on the query it is applied to. */
  lemma LowerErrorOf(p: Pred, a: RelExpr, b: RelExpr, root: Relation)
    ensures Lower(p, a, root).Ok? <==> Lower(p, b, root).Ok?
    ensures Lower(p, a, root).Err? ==> Lower(p, a, root) == Lower(p, b, root)
  {
    hide Lower, Acceptable, FirstFault, Nodes;
    LowerAccepts(p, a, root);
    LowerAccepts(p, b, root);
    if Lower(p, a, root).Err? { assert FirstFault(Nodes(p, root), Lower(p, a, root).error); }
  }

  /** Number of filters before the first that is not acceptable. */
  function AcceptedPrefix(root: Relation, preds: seq<Pred>): (n: nat)
    ensures n <= |preds|
  {
    if preds == [] || !Acceptable(preds[0], root) then 0 else 1 + AcceptedPrefix(root, preds[1..])
  }

  lemma {:induction false} AcceptedPrefixSpec(root: Relation, preds: seq<Pred>)
    ensures forall i | 0 <= i < AcceptedPrefix(root, preds) :: Acceptable(preds[i], root)
    ensures AcceptedPrefix(root, preds) < |preds| ==> !Acceptable(preds[AcceptedPrefix(root, preds)], root)
  {
    hide Acceptable;
    if preds != [] && Acceptable(preds[0], root) {
      AcceptedPrefixSpec(root, preds[1..]);
      forall i | 0 <= i < AcceptedPrefix(root, preds) ensures Acceptable(preds[i], root) {
        assert i > 0 ==> preds[i] == preds[1..][i - 1];
      }
    }
  }

  ghost predicate HoldsAll(preds: seq<Pred>, row: Row, db: Database, g: Gamma) {
    forall i | 0 <= i < |preds| :: Holds(preds[i], row, db, g)
  }

  ghost predicate AnswersAll(q: RelExpr, t: Table, preds: seq<Pred>, db: Database, g: Gamma) {
    var r := Eval(q, db, g);
    r.Ok? && SameShape(g, r.value, t) && forall x :: x in r.value.rows <==> x in t.rows && HoldsAll(preds, x, db, g)
  }

  lemma {:induction false} AllAccepted(root: Relation, base: RelExpr, t: Table, preds: seq<Pred>, db: Database, g: Gamma)
    requires DatabaseOk(g, db) && HandleOk(db, root)
    requires Eval(base, db, g) == Ok(t) && TableOk(g, t) && t.equivs == root.equivs
    requires forall i | 0 <= i < |preds| :: WellFormed(preds[i], root, db, g) && Acceptable(preds[i], root)
    ensures FilterRun(root, base, preds).error.None?
    ensures AnswersAll(FilterRun(root, base, preds).inner, t, preds, db, g)
  {
    hide KeyDistinct, Eval, Holds, Lower, WellFormed, Acceptable;
    if preds != [] {
      var n := |preds| - 1;
      var init := preds[..n];
      AllAccepted(root, base, t, init, db, g);
      var before := FilterRun(root, base, init).inner;
      var kept := Eval(before, db, g).value;
      LowerCorrect(preds[n], before, root, kept, db, g);
      forall x ensures HoldsAll(preds, x, db, g) <==> HoldsAll(init, x, db, g) && Holds(preds[n], x, db, g) {
        assert forall i | 0 <= i < n :: init[i] == preds[i];
      }
    }
  }

  /** Once a filter fails the query keeps its first error and ignores all later filters. */
  lemma {:induction false} FirstErrorSticks(root: Relation, base: RelExpr, preds: seq<Pred>, n: nat)
    requires n < |preds| && !Acceptable(preds[n], root)
    requires FilterRun(root, base, preds[..n]).error.None?
    ensures var s := FilterRun(root, base, preds);
            && s.inner == FilterRun(root, base, preds[..n]).inner
            && s.error.Some? && FirstFault(Nodes(preds[n], root), s.error.value)
  {
    hide Lower, Acceptable, FirstFault, Nodes;
    var m := |preds| - 1;
    if n == m {
      LowerAccepts(preds[n], FilterRun(root, base, preds[..n]).inner, root);
    } else {
      assert preds[..m][..n] == preds[..n];
      FirstErrorSticks(root, base, preds[..m], n);
    }
  }

  /** After any run of filters, over the whole relation or a part of it, the raw query, which drops a pending
      error, selects exactly the rows satisfying the filters before the first one that failed to lower; the error
      is the error of that filter, and there is none iff every filter lowered. */
  lemma FilterRunCorrect(root: Relation, base: RelExpr, t: Table, preds: seq<Pred>, db: Database, g: Gamma)
    requires DatabaseOk(g, db) && HandleOk(db, root)
    requires Eval(base, db, g) == Ok(t) && TableOk(g, t) && t.equivs == root.equivs
    requires forall i | 0 <= i < |preds| :: WellFormed(preds[i], root, db, g)
    ensures var n := AcceptedPrefix(root, preds);
            var s := FilterRun(root, base, preds);
            && AnswersAll(s.inner, t, preds[..n], db, g)
            && (s.error.None? <==> n == |preds|)
            && (n < |preds| ==> s.error.Some? && FirstFault(Nodes(preds[n], root), s.error.value))
  {
    hide KeyDistinct, Eval, Holds, Lower, WellFormed, AnswersAll, Acceptable, FirstFault, Nodes;
    var n := AcceptedPrefix(root, preds);
    AcceptedPrefixSpec(root, preds);
    AllAccepted(root, base, t, preds[..n], db, g);
    if n < |preds| {
      FirstErrorSticks(root, base, preds, n);
    } else {
      assert preds[..n] == preds;
    }
  }
}
