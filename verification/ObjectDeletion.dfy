/** Deleting what an object query selects. Object queries range over the object's own relation, so the identities they
    select are those of stored rows. */
module ObjectDeletion {
  import opened Wrappers
  import opened RelationalAlgebra
  import opened PredicateCompiler
  import opened TableLaws
  import opened ObjectQueries
  import opened DeletePlans
  import PlanModel
  import PlanLaws

  /** `root` is the stored relation of the object type, and every row of it carries an identity of the type, compared
      exactly. */
  ghost predicate StoresObjects(g: Gamma, db: Database, root: Relation, p: Persisted) {
    && root.id == p.relation && HandleOk(db, root)
    && p.column < |root.equivs| && root.equivs[p.column] == p.equiv
    && IdentityColumn(db[root.id], p.column, p.entityType) && ExactIdentity(g, p)
  }

  /** `t` is a part of the stored relation. */
  ghost predicate PartOf(g: Gamma, t: Table, stored: Table) {
    SameShape(g, t, stored) && forall row | row in t.rows :: row in stored.rows
  }

  // ----- Objects related to one object -----

  /** The rows of `root` that an edge of the relationship leads to from one source. */
  function RelatedTo(root: Relation, identity: nat, edges: RelationId, source: Value, sourceEquiv: EquivId, targetEquiv: EquivId)
    : RelExpr
  {
    Project(JoinEq(Scan(root.id), FilterEqConst(Scan(edges), 0, source, sourceEquiv), identity, 1, targetEquiv),
            Columns(|root.equivs|))
  }

  /** An edge that starts at the source and ends at the row. */
  ghost predicate LeadsTo(g: Gamma, e: Row, source: Value, sourceEquiv: EquivId, row: Row, identity: nat, targetEquiv: EquivId) {
    0 < |e| && Key(g, sourceEquiv, e[0]) == Key(g, sourceEquiv, source) && KeyMatch(g, targetEquiv, row, identity, e, 1)
  }

  lemma ProjectedBack(g: Gamma, s: Table, t: Table, left: nat, right: nat, equiv: EquivId)
    requires TableOk(g, s)
    ensures var u := ProjectTable(g, JoinTable(g, s, t, left, right, equiv), Columns(|s.equivs|));
            && SameShape(g, u, s)
            && forall r :: r in u.rows <==> r in s.rows && exists b :: b in t.rows && KeyMatch(g, equiv, r, left, b, right)
  {
    hide DistinctRows, JoinRows;
    var joined := JoinTable(g, s, t, left, right, equiv);
    var projected := ProjectRows(joined.rows, Columns(|s.equivs|));
    JoinedLeftRows(g, s, t, left, right, equiv);
    assert ProjectEquivs(joined.equivs, Columns(|s.equivs|)) == s.equivs;
    DistinctWithinSet(g, s.equivs, projected, s.rows);
  }

  /** A relationship query selects exactly the stored rows an edge from the source leads to. */
  lemma RelatedToEval(root: Relation, identity: nat, edges: RelationId, source: Value, sourceEquiv: EquivId, targetEquiv: EquivId,
                      db: Database, g: Gamma) returns (t: Table)
    requires DatabaseOk(g, db) && HandleOk(db, root) && identity < |root.equivs|
    requires edges in db && |db[edges].equivs| == 2
    ensures Eval(RelatedTo(root, identity, edges, source, sourceEquiv, targetEquiv), db, g) == Ok(t)
    ensures PartOf(g, t, db[root.id])
    ensures forall row ::
              row in t.rows
              <==> row in db[root.id].rows && exists e :: e in db[edges].rows && LeadsTo(g, e, source, sourceEquiv, row, identity, targetEquiv)
  {
    hide FilterTable, ProjectTable, JoinTable, KeyMatch;
    var stored, test := db[root.id], KeyIs(0, sourceEquiv, source);
    var from := FilterTable(g, test, db[edges]);
    ScanEval(root.id, db, g);
    ScanEval(edges, db, g);
    FilterEqEval(g, db, Scan(edges), db[edges], 0, source, sourceEquiv);
    FilterTableSpec(g, test, db[edges]);
    ProjectedBack(g, stored, from, identity, 1, targetEquiv);
    t := ProjectTable(g, JoinTable(g, stored, from, identity, 1, targetEquiv), Columns(|root.equivs|));
    JoinProjectEval(g, db, Scan(root.id), FilterEqConst(Scan(edges), 0, source, sourceEquiv), stored, from, identity, 1, targetEquiv);
  }

  lemma JoinProjectEval(g: Gamma, db: Database, left: RelExpr, right: RelExpr, s: Table, t: Table, i: nat, j: nat, equiv: EquivId)
    requires Eval(left, db, g) == Ok(s) && i < |s.equivs| && Eval(right, db, g) == Ok(t) && j < |t.equivs|
    ensures Eval(Project(JoinEq(left, right, i, j, equiv), Columns(|s.equivs|)), db, g)
         == Ok(ProjectTable(g, JoinTable(g, s, t, i, j, equiv), Columns(|s.equivs|)))
  {
    hide ProjectTable;
    assert Eval(JoinEq(left, right, i, j, equiv), db, g) == Ok(JoinTable(g, s, t, i, j, equiv));
  }

  // ----- Deleting -----

  /** The rows an object query stands for: those of its starting part that satisfy every filter accepted. */
  ghost predicate Chosen(root: Relation, part: Table, preds: seq<Pred>, row: Row, db: Database, g: Gamma) {
    row in part.rows && HoldsAll(preds[..AcceptedPrefix(root, preds)], row, db, g)
  }

  /** Another stored row carries the identity of `row`. */
  ghost predicate Shared(g: Gamma, p: Persisted, rows: seq<Row>, row: Row) {
    exists other, id :: other in rows && other != row && Matches(g, p, row, id) && Matches(g, p, other, id)
  }

  lemma StoredOnceIff(g: Gamma, p: Persisted, rows: seq<Row>, row: Row, id: nat)
    requires row in rows && Matches(g, p, row, id) && ExactIdentity(g, p)
    ensures |StoredUnder(g, p, rows, id)| == 1 <==> !Shared(g, p, rows, row)
  {
    var under := StoredUnder(g, p, rows, id);
    assert row in under;
    if Shared(g, p, rows, row) {
      var other, k :| other in rows && other != row && Matches(g, p, row, k) && Matches(g, p, other, k);
      assert k == id;
      Doubled(g, p, rows, id, row, other);
    } else {
      forall x | x in under ensures x == row { assert Matches(g, p, x, id); }
      assert under == {row};
    }
  }

  /** The identity cell of a stored row is an identity it matches, and the only one. */
  lemma CellMatches(g: Gamma, db: Database, root: Relation, p: Persisted, row: Row)
    requires StoresObjects(g, db, root, p) && row in db[root.id].rows
    ensures p.column < |row| && row[p.column].EntityRef? && Matches(g, p, row, row[p.column].id)
    ensures forall id :: Matches(g, p, row, id) ==> id == row[p.column].id
  {
  }

  lemma NamedIffChosen(g: Gamma, db: Database, root: Relation, p: Persisted, t: Table, row: Row)
    requires StoresObjects(g, db, root, p) && PartOf(g, t, db[root.id])
    ensures IdentityColumn(t, p.column, p.entityType) && OwnRows(g, p, db[root.id].rows, t, p.column)
    ensures (forall id | Names(t, p.column, id) :: |StoredUnder(g, p, db[root.id].rows, id)| == 1)
       <==> forall a | a in t.rows :: !Shared(g, p, db[root.id].rows, a)
    ensures (forall a | a in t.rows :: !Shared(g, p, db[root.id].rows, a)) ==>
              (row in t.rows <==> row in db[root.id].rows && exists id :: Names(t, p.column, id) && Matches(g, p, row, id))
  {
    hide StoredUnder, Shared, KeyDistinct, Matches, ExactIdentity;
    var rows := db[root.id].rows;
    forall a: Row | a in t.rows
      ensures p.column < |a| && a[p.column].EntityRef? && Matches(g, p, a, a[p.column].id) && Names(t, p.column, a[p.column].id)
      ensures |StoredUnder(g, p, rows, a[p.column].id)| == 1 <==> !Shared(g, p, rows, a)
    {
      CellMatches(g, db, root, p, a);
      StoredOnceIff(g, p, rows, a, a[p.column].id);
    }
    if (forall a | a in t.rows :: !Shared(g, p, rows, a)) && row in rows {
      if id :| Names(t, p.column, id) && Matches(g, p, row, id) {
        var a: Row :| a in t.rows && p.column < |a| && a[p.column].EntityRef? && a[p.column].id == id;
        NotShared(g, p, rows, a, row, id);
      }
    }
  }

  lemma NotShared(g: Gamma, p: Persisted, rows: seq<Row>, a: Row, b: Row, id: nat)
    requires b in rows && Matches(g, p, a, id) && Matches(g, p, b, id) && !Shared(g, p, rows, a)
    ensures a == b
  {
  }

  /** Deleting what an object query selects, whatever its filters and whether it ranges over the whole relation or the
      objects related to one: it is granted exactly when the declarations are in order and no selected row shares its
      identity with another stored row, and then removes exactly the selected rows. Uniqueness of stored identities
      is not assumed; where it holds every such deletion is granted. */
  lemma DeletesChosen(root: Relation, base: RelExpr, part: Table, preds: seq<Pred>, p: Persisted, exactShape: bool,
                      snapshot: PlanModel.Snapshot, db: Database, g: Gamma, row: Row)
    requires DatabaseOk(g, db) && StoresObjects(g, db, root, p)
    requires Eval(base, db, g) == Ok(part) && PartOf(g, part, db[root.id])
    requires forall i | 0 <= i < |preds| :: WellFormed(preds[i], root, db, g)
    ensures var r, rows := Deletion(g, db, FilterRun(root, base, preds).inner, Some(p.column), exactShape, p, snapshot), db[root.id].rows;
            && (r == Err(DeleteError.InvalidSchema) <==> !SchemaOk(p))
            && (r == Err(CountMismatch) <==> SchemaOk(p) && exists a :: Chosen(root, part, preds, a, db, g) && Shared(g, p, rows, a))
            && (r.Ok? <==> SchemaOk(p) && forall a | Chosen(root, part, preds, a, db, g) :: !Shared(g, p, rows, a))
            && (r.Ok? ==>
                  ((row, Some(PlanModel.ObjectDelete)) in PlanLaws.Tagged(r.value, p.relation, PlanModel.Removing)
                   <==> Chosen(root, part, preds, row, db, g)))
  {
    hide Eval, Deletion, PlanLaws.Tagged, KeyDistinct, HoldsAll, WellFormed, Shared, StoredUnder, Matches, FilterRun, ExactIdentity;
    var q := FilterRun(root, base, preds).inner;
    FilterRunCorrect(root, base, part, preds, db, g);
    var t := Eval(q, db, g).value;
    assert forall a :: a in t.rows <==> Chosen(root, part, preds, a, db, g);
    NamedIffChosen(g, db, root, p, t, row);
    assert p.(equiv := t.equivs[p.column]) == p;
    DeletesQueried(g, db, q, p.column, exactShape, p, snapshot, t, row);
  }

  /** Objects without identity: deleting what a filtered query selects is granted exactly on the exact shape, and removes
      exactly the selected rows. */
  lemma DeletesChosenValues(root: Relation, base: RelExpr, part: Table, preds: seq<Pred>, p: Persisted, exactShape: bool,
                            snapshot: PlanModel.Snapshot, db: Database, g: Gamma, row: Row)
    requires DatabaseOk(g, db) && HandleOk(db, root)
    requires Eval(base, db, g) == Ok(part) && PartOf(g, part, db[root.id])
    requires forall i | 0 <= i < |preds| :: WellFormed(preds[i], root, db, g)
    ensures var r := Deletion(g, db, FilterRun(root, base, preds).inner, None, exactShape, p, snapshot);
            && (if exactShape then r.Ok? else r == Err(PartialValueObject))
            && (r.Ok? ==>
                  ((row, None) in PlanLaws.Tagged(r.value, p.relation, PlanModel.Removing) <==> Chosen(root, part, preds, row, db, g)))
  {
    hide Eval, Deletion, PlanLaws.Tagged, KeyDistinct, HoldsAll, WellFormed, FilterRun;
    var q := FilterRun(root, base, preds).inner;
    FilterRunCorrect(root, base, part, preds, db, g);
    var t := Eval(q, db, g).value;
    assert forall a :: a in t.rows <==> Chosen(root, part, preds, a, db, g);
    DeletesValues(g, db, q, exactShape, p, snapshot);
    var r := Deletion(g, db, q, None, exactShape, p, snapshot);
    if r.Ok? { AllTagged(t.rows, None, PlanLaws.Tagged(r.value, p.relation, PlanModel.Removing)); }
  }

  /** Over the whole relation. */
  lemma DeletesWhere(root: Relation, preds: seq<Pred>, p: Persisted, exactShape: bool, snapshot: PlanModel.Snapshot,
                     db: Database, g: Gamma, row: Row)
    requires DatabaseOk(g, db) && StoresObjects(g, db, root, p)
    requires forall i | 0 <= i < |preds| :: WellFormed(preds[i], root, db, g)
    ensures var r := Deletion(g, db, FilterRun(root, Scan(root.id), preds).inner, Some(p.column), exactShape, p, snapshot);
            && (r.Ok? <==> SchemaOk(p) && forall a | Chosen(root, db[root.id], preds, a, db, g) :: !Shared(g, p, db[root.id].rows, a))
            && (r.Ok? ==>
                  ((row, Some(PlanModel.ObjectDelete)) in PlanLaws.Tagged(r.value, p.relation, PlanModel.Removing)
                   <==> Chosen(root, db[root.id], preds, row, db, g)))
  {
    hide *;
    ScanEval(root.id, db, g) by { StoredKnown(g, db, root, p); }
    StoredKnown(g, db, root, p);
    DeletesChosen(root, Scan(root.id), db[root.id], preds, p, exactShape, snapshot, db, g, row);
  }

  /** Over the objects related to one. */
  lemma DeletesRelated(root: Relation, identity: nat, edges: RelationId, source: Value, sourceEquiv: EquivId, targetEquiv: EquivId,
                       preds: seq<Pred>, p: Persisted, exactShape: bool, snapshot: PlanModel.Snapshot, db: Database, g: Gamma,
                       row: Row) returns (related: Table)
    requires DatabaseOk(g, db) && StoresObjects(g, db, root, p) && identity < |root.equivs|
    requires edges in db && |db[edges].equivs| == 2
    requires forall i | 0 <= i < |preds| :: WellFormed(preds[i], root, db, g)
    ensures forall x ::
              x in related.rows
              <==> x in db[root.id].rows && exists e :: e in db[edges].rows && LeadsTo(g, e, source, sourceEquiv, x, identity, targetEquiv)
    ensures var base := RelatedTo(root, identity, edges, source, sourceEquiv, targetEquiv);
            var r := Deletion(g, db, FilterRun(root, base, preds).inner, Some(p.column), exactShape, p, snapshot);
            && (r.Ok? <==> SchemaOk(p) && forall a | Chosen(root, related, preds, a, db, g) :: !Shared(g, p, db[root.id].rows, a))
            && (r.Ok? ==>
                  ((row, Some(PlanModel.ObjectDelete)) in PlanLaws.Tagged(r.value, p.relation, PlanModel.Removing)
                   <==> Chosen(root, related, preds, row, db, g)))
  {
    var base := RelatedTo(root, identity, edges, source, sourceEquiv, targetEquiv);
    related := RelatedToEval(root, identity, edges, source, sourceEquiv, targetEquiv, db, g);
    hide *;
    DeletesChosen(root, base, related, preds, p, exactShape, snapshot, db, g, row);
  }

  lemma StoredKnown(g: Gamma, db: Database, root: Relation, p: Persisted)
    requires DatabaseOk(g, db) && StoresObjects(g, db, root, p)
    ensures root.id in db && PartOf(g, db[root.id], db[root.id])
  {
  }
}
