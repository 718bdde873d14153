/** Deleting the objects a query selects: the selected identities are looked up again among the stored rows,
    and exactly those rows are removed. */
module DeletePlans {
  import opened Wrappers
  import opened RelationalAlgebra
  import opened TableLaws
  import PlanModel
  import PlanLaws
  import PlanBuilder

  /** An owned relationship of the object type, and the contract of its target if that has one; `valid` unless the
      target's declaration is broken. */
  datatype Owned = Owned(relation: RelationId, contract: nat, target: RelationId, targetContract: Option<nat>, valid: bool)

  /** The persisted object relation: where it stores identities, how it compares them, and what it owns. */
  datatype Persisted = Persisted(
    relation: RelationId, column: nat, equiv: EquivId, entityType: nat, contract: nat, owned: seq<Owned>)

  datatype DeleteError =
    | PartialValueObject
    | QueryFailed(error: QueryError)
    | NotAnIdentity
    | InvalidSchema
    | CountMismatch

  // ----- The lookup query -----

  function SelectOne(p: Persisted, id: nat): RelExpr {
    FilterEqConst(Scan(p.relation), p.column, EntityRef(p.entityType, id), p.equiv)
  }

  /** Left-nested union of one lookup per identity. */
  function SelectAll(p: Persisted, ids: seq<nat>): RelExpr
    requires ids != []
  {
    if |ids| == 1 then SelectOne(p, ids[0])
    else Union(SelectAll(p, ids[..|ids| - 1]), SelectOne(p, ids[|ids| - 1]))
  }

  method BuildSelectAll(p: Persisted, ids: seq<nat>) returns (query: RelExpr)
    requires ids != []
    ensures query == SelectAll(p, ids)
  {
    query := SelectOne(p, ids[0]);
    assert ids[..1] == [ids[0]];
    for i := 1 to |ids|
      invariant query == SelectAll(p, ids[..i])
    {
      assert ids[..i + 1][..i] == ids[..i];
      query := Union(query, SelectOne(p, ids[i]));
    }
    assert ids[..|ids|] == ids;
  }

  // ----- What it selects -----

  predicate Matches(g: Gamma, p: Persisted, row: Row, id: nat) {
    p.column < |row| && Key(g, p.equiv, row[p.column]) == Key(g, p.equiv, EntityRef(p.entityType, id))
  }

  predicate MatchesAny(g: Gamma, p: Persisted, row: Row, ids: seq<nat>) {
    exists id | id in ids :: Matches(g, p, row, id)
  }

  lemma SelectOneEval(g: Gamma, db: Database, p: Persisted, id: nat)
    requires p.relation in db && TableOk(g, db[p.relation]) && p.column < |db[p.relation].equivs|
    ensures Eval(SelectOne(p, id), db, g).Ok?
    ensures var out := Eval(SelectOne(p, id), db, g).value;
            && SameShape(g, out, db[p.relation])
            && forall row :: row in out.rows <==> row in db[p.relation].rows && Matches(g, p, row, id)
  {
    hide FilterTable;
    var stored, test := db[p.relation], KeyIs(p.column, p.equiv, EntityRef(p.entityType, id));
    FilterTableSpec(g, test, stored);
    ScanEval(p.relation, db, g);
    assert forall row :: Keeps(g, test, row) <==> Matches(g, p, row, id);
  }

  /** The folded union evaluates to exactly the stored rows whose identity was selected, each once. */
  lemma {:induction false} SelectAllEval(g: Gamma, db: Database, p: Persisted, ids: seq<nat>)
    requires p.relation in db && TableOk(g, db[p.relation]) && p.column < |db[p.relation].equivs|
    requires ids != []
    ensures Eval(SelectAll(p, ids), db, g).Ok?
    ensures var out := Eval(SelectAll(p, ids), db, g).value;
            && SameShape(g, out, db[p.relation])
            && forall row :: row in out.rows <==> row in db[p.relation].rows && MatchesAny(g, p, row, ids)
  {
    hide SelectOne, TableOk, UnionTable, Matches;
    var stored, n := db[p.relation], |ids| - 1;
    SelectOneEval(g, db, p, ids[n]);
    assert ids == ids[..n] + [ids[n]];
    if n == 0 {
      assert forall row :: MatchesAny(g, p, row, ids) <==> Matches(g, p, row, ids[0]);
    } else {
      SelectAllEval(g, db, p, ids[..n]);
      var l, r := Eval(SelectAll(p, ids[..n]), db, g).value, Eval(SelectOne(p, ids[n]), db, g).value;
      UnionSpec(g, l, r, stored);
      assert forall row :: MatchesAny(g, p, row, ids) <==> MatchesAny(g, p, row, ids[..n]) || Matches(g, p, row, ids[n]);
    }
  }

  // ----- How many rows it selects -----

  function RowSet(rows: seq<Row>): set<Row> {
    set row | row in rows
  }

  function Selected(g: Gamma, p: Persisted, rows: seq<Row>, ids: seq<nat>): set<Row> {
    set row | row in rows && MatchesAny(g, p, row, ids)
  }

  function StoredUnder(g: Gamma, p: Persisted, rows: seq<Row>, id: nat): set<Row> {
    set row | row in rows && Matches(g, p, row, id)
  }

  /** Stored rows per identity, added up. */
  function TotalStored(g: Gamma, p: Persisted, rows: seq<Row>, ids: seq<nat>): nat {
    if ids == [] then 0
    else TotalStored(g, p, rows, ids[..|ids| - 1]) + |StoredUnder(g, p, rows, ids[|ids| - 1])|
  }

  ghost predicate Increasing(ids: seq<nat>) {
    forall i, j | 0 <= i < j < |ids| :: ids[i] < ids[j]
  }

  /** Identities of the object type are told apart by the identity column's equivalence. */
  ghost predicate ExactIdentity(g: Gamma, p: Persisted) {
    forall a, b | Key(g, p.equiv, EntityRef(p.entityType, a)) == Key(g, p.equiv, EntityRef(p.entityType, b)) :: a == b
  }

  ghost predicate Resolves(g: Gamma, p: Persisted, rows: seq<Row>, id: nat) {
    exists row :: row in rows && Matches(g, p, row, id)
  }

  /** No two stored rows carry the same identity. */
  ghost predicate UniqueIdentity(g: Gamma, p: Persisted, rows: seq<Row>) {
    forall id, a, b | a in rows && b in rows && Matches(g, p, a, id) && Matches(g, p, b, id) :: a == b
  }

  lemma {:induction false} RowsAreASet(g: Gamma, equivs: seq<EquivId>, rows: seq<Row>)
    requires KeyDistinct(g, equivs, rows)
    ensures |RowSet(rows)| == |rows|
  {
    if rows != [] {
      hide RowKey;
      var init, last := rows[..|rows| - 1], rows[|rows| - 1];
      RowsAreASet(g, equivs, init);
      assert RowSet(rows) == RowSet(init) + {last};
      assert last !in init;
    }
  }

  lemma {:induction false} SelectedCount(g: Gamma, p: Persisted, rows: seq<Row>, ids: seq<nat>)
    requires ExactIdentity(g, p) && Increasing(ids)
    ensures |Selected(g, p, rows, ids)| == TotalStored(g, p, rows, ids)
  {
    if ids == [] {
      assert Selected(g, p, rows, ids) == {};
    } else {
      var n := |ids| - 1;
      SelectedCount(g, p, rows, ids[..n]);
      var before, more := Selected(g, p, rows, ids[..n]), StoredUnder(g, p, rows, ids[n]);
      assert ids == ids[..n] + [ids[n]];
      assert forall row :: MatchesAny(g, p, row, ids) <==> MatchesAny(g, p, row, ids[..n]) || Matches(g, p, row, ids[n]);
      assert Selected(g, p, rows, ids) == before + more;
      forall row | row in more ensures row !in before {
        assert forall id | id in ids[..n] :: !Matches(g, p, row, id);
      }
      assert before !! more;
    }
  }

  lemma StoredOnce(g: Gamma, p: Persisted, rows: seq<Row>, id: nat)
    requires UniqueIdentity(g, p, rows)
    ensures |StoredUnder(g, p, rows, id)| == if Resolves(g, p, rows, id) then 1 else 0
  {
    var under := StoredUnder(g, p, rows, id);
    if row :| row in rows && Matches(g, p, row, id) {
      assert under == {row};
    } else {
      assert under == {};
    }
  }

  lemma {:induction false} TotalIsLengthIff(g: Gamma, p: Persisted, rows: seq<Row>, ids: seq<nat>)
    requires UniqueIdentity(g, p, rows)
    ensures TotalStored(g, p, rows, ids) <= |ids|
    ensures TotalStored(g, p, rows, ids) == |ids| <==> forall id | id in ids :: Resolves(g, p, rows, id)
  {
    if ids != [] {
      hide UniqueIdentity, StoredUnder, Resolves;
      var n := |ids| - 1;
      TotalIsLengthIff(g, p, rows, ids[..n]);
      StoredOnce(g, p, rows, ids[n]);
      assert ids == ids[..n] + [ids[n]];
    }
  }

  /** The row count check passes exactly when the selected identities have, added up, as many stored rows as
      there are identities. */
  lemma CountCheck(g: Gamma, db: Database, p: Persisted, ids: seq<nat>)
    requires p.relation in db && TableOk(g, db[p.relation]) && p.column < |db[p.relation].equivs|
    requires ExactIdentity(g, p) && ids != [] && Increasing(ids)
    ensures Eval(SelectAll(p, ids), db, g).Ok?
    ensures |Eval(SelectAll(p, ids), db, g).value.rows| == TotalStored(g, p, db[p.relation].rows, ids)
  {
    hide SelectAll, Eval, ExactIdentity, MatchesAny;
    SelectAllEval(g, db, p, ids);
    var out, rows := Eval(SelectAll(p, ids), db, g).value, db[p.relation].rows;
    RowsAreASet(g, out.equivs, out.rows);
    SelectedCount(g, p, rows, ids);
    assert RowSet(out.rows) == Selected(g, p, rows, ids);
  }

  /** With unique identities it passes exactly when every selected identity resolves to a stored row. */
  lemma CountCheckUnique(g: Gamma, db: Database, p: Persisted, ids: seq<nat>)
    requires p.relation in db && TableOk(g, db[p.relation]) && p.column < |db[p.relation].equivs|
    requires ExactIdentity(g, p) && ids != [] && Increasing(ids)
    requires UniqueIdentity(g, p, db[p.relation].rows)
    ensures Eval(SelectAll(p, ids), db, g).Ok?
    ensures |Eval(SelectAll(p, ids), db, g).value.rows| == |ids|
       <==> forall id | id in ids :: Resolves(g, p, db[p.relation].rows, id)
  {
    hide *;
    CountCheck(g, db, p, ids);
    TotalIsLengthIff(g, p, db[p.relation].rows, ids);
  }

  // ----- Identities that are all stored -----

  /** Where every identity resolves, the count agrees exactly when each has one stored row. */
  lemma {:induction false} TotalOfResolved(g: Gamma, p: Persisted, rows: seq<Row>, ids: seq<nat>)
    requires forall id | id in ids :: Resolves(g, p, rows, id)
    ensures TotalStored(g, p, rows, ids) >= |ids|
    ensures TotalStored(g, p, rows, ids) == |ids| <==> forall id | id in ids :: |StoredUnder(g, p, rows, id)| == 1
  {
    if ids != [] {
      hide StoredUnder, Resolves;
      var n := |ids| - 1;
      assert ids == ids[..n] + [ids[n]];
      TotalOfResolved(g, p, rows, ids[..n]);
      SomethingStored(g, p, rows, ids[n]);
    }
  }

  lemma SomethingStored(g: Gamma, p: Persisted, rows: seq<Row>, id: nat)
    requires Resolves(g, p, rows, id)
    ensures |StoredUnder(g, p, rows, id)| >= 1
  {
    var row :| row in rows && Matches(g, p, row, id);
    assert row in StoredUnder(g, p, rows, id);
  }

  // ----- Arbitrary lists of identities -----

  /** The lookup finds as many rows as identities were selected. */
  ghost predicate CountAgrees(g: Gamma, db: Database, p: Persisted, ids: seq<nat>) {
    && ids != []
    && var found := Eval(SelectAll(p, ids), db, g);
       found.Ok? && |found.value.rows| == |ids|
  }

  ghost predicate AllResolve(g: Gamma, p: Persisted, rows: seq<Row>, ids: seq<nat>) {
    forall id | id in ids :: Resolves(g, p, rows, id)
  }

  /** Only finitely many identities are stored. */
  lemma {:induction false} UnresolvedFrom(g: Gamma, p: Persisted, rows: seq<Row>) returns (from: nat)
    requires ExactIdentity(g, p)
    ensures forall id: nat | from <= id :: !Resolves(g, p, rows, id)
  {
    if rows == [] {
      from := 0;
    } else {
      var n := |rows| - 1;
      from := UnresolvedFrom(g, p, rows[..n]);
      assert rows == rows[..n] + [rows[n]];
      assert forall id: nat :: Resolves(g, p, rows, id) ==> Resolves(g, p, rows[..n], id) || Matches(g, p, rows[n], id);
      if id: nat :| Matches(g, p, rows[n], id) {
        from := if id < from then from else id + 1;
      }
    }
  }

  /** An identity followed by so many consecutive ones. */
  function Padded(id: nat, from: nat, n: nat): seq<nat> {
    if n == 0 then [id] else Padded(id, from, n - 1) + [from + n - 1]
  }

  lemma {:induction false} PaddedIncreasing(id: nat, from: nat, n: nat)
    requires id < from
    ensures var ids := Padded(id, from, n);
            && |ids| == n + 1 && Increasing(ids) && ids[n] == (if n == 0 then id else from + n - 1)
            && forall x | x in ids :: x < from + n
  {
    if n > 0 {
      hide Increasing;
      PaddedIncreasing(id, from, n - 1);
      AppendLarger(Padded(id, from, n - 1), from + n - 1);
    }
  }

  lemma {:induction false} PaddedTotal(g: Gamma, p: Persisted, rows: seq<Row>, id: nat, from: nat, n: nat)
    requires forall x: nat | from <= x :: !Resolves(g, p, rows, x)
    ensures TotalStored(g, p, rows, Padded(id, from, n)) == |StoredUnder(g, p, rows, id)|
  {
    if n == 0 {
      TotalOneMore(g, p, rows, [], id);
      assert [] + [id] == [id];
    } else {
      hide Resolves, TotalStored, StoredUnder;
      var before, last := Padded(id, from, n - 1), from + n - 1;
      PaddedTotal(g, p, rows, id, from, n - 1);
      assert Padded(id, from, n) == before + [last];
      TotalOneMore(g, p, rows, before, last);
      NothingStored(g, p, rows, last);
    }
  }

  lemma TotalOneMore(g: Gamma, p: Persisted, rows: seq<Row>, ids: seq<nat>, id: nat)
    ensures TotalStored(g, p, rows, ids + [id]) == TotalStored(g, p, rows, ids) + |StoredUnder(g, p, rows, id)|
  {
    assert (ids + [id])[..|ids|] == ids;
  }

  lemma NothingStored(g: Gamma, p: Persisted, rows: seq<Row>, id: nat)
    requires !Resolves(g, p, rows, id)
    ensures |StoredUnder(g, p, rows, id)| == 0
  {
    assert StoredUnder(g, p, rows, id) == {};
  }

  lemma Doubled(g: Gamma, p: Persisted, rows: seq<Row>, id: nat, a: Row, b: Row)
    requires a in rows && b in rows && Matches(g, p, a, id) && Matches(g, p, b, id) && a != b
    ensures |StoredUnder(g, p, rows, id)| >= 2
  {
    var under := StoredUnder(g, p, rows, id);
    assert under == {a, b} + (under - {a, b});
  }

  /** A list that passes the check although one of its identities is not stored. */
  lemma HidingSelection(g: Gamma, db: Database, p: Persisted) returns (ids: seq<nat>)
    requires p.relation in db && TableOk(g, db[p.relation]) && p.column < |db[p.relation].equivs|
    requires ExactIdentity(g, p) && !UniqueIdentity(g, p, db[p.relation].rows)
    ensures ids != [] && Increasing(ids)
    ensures CountAgrees(g, db, p, ids) && !AllResolve(g, p, db[p.relation].rows, ids)
  {
    hide Eval, SelectAll, ExactIdentity, TotalStored, StoredUnder, Matches, TableOk, Resolves;
    var rows := db[p.relation].rows;
    var id: nat, a, b :| a in rows && b in rows && Matches(g, p, a, id) && Matches(g, p, b, id) && a != b;
    Doubled(g, p, rows, id, a, b);
    var unstored := UnresolvedFrom(g, p, rows);
    var from, n := if unstored <= id then id + 1 else unstored, |StoredUnder(g, p, rows, id)| - 1;
    PaddedTotal(g, p, rows, id, from, n);
    PaddedIncreasing(id, from, n);
    ids := Padded(id, from, n);
    CountCheck(g, db, p, ids);
    assert ids[n] in ids && !Resolves(g, p, rows, ids[n]);
  }

  /** Over arbitrary lists, also those no object query yields: the check tells exactly the lists whose identities are
      all stored, if and only if no two stored rows carry the same identity. */
  lemma CountCheckExactIff(g: Gamma, db: Database, p: Persisted)
    requires p.relation in db && TableOk(g, db[p.relation]) && p.column < |db[p.relation].equivs|
    requires ExactIdentity(g, p)
    ensures UniqueIdentity(g, p, db[p.relation].rows)
       <==> forall ids: seq<nat> | ids != [] && Increasing(ids) ::
              CountAgrees(g, db, p, ids) <==> AllResolve(g, p, db[p.relation].rows, ids)
  {
    hide Eval, SelectAll, ExactIdentity, TableOk, Increasing, Resolves, UniqueIdentity;
    if UniqueIdentity(g, p, db[p.relation].rows) {
      forall ids: seq<nat> | ids != [] && Increasing(ids)
        ensures CountAgrees(g, db, p, ids) <==> AllResolve(g, p, db[p.relation].rows, ids)
      {
        CountCheckUnique(g, db, p, ids);
      }
    } else {
      var ids := HidingSelection(g, db, p);
    }
  }

  // ----- The identities a query selects -----

  function InsertId(ids: seq<nat>, id: nat): seq<nat> {
    if ids == [] || ids[|ids| - 1] < id then ids + [id]
    else if ids[|ids| - 1] == id then ids
    else InsertId(ids[..|ids| - 1], id) + [ids[|ids| - 1]]
  }

  /** Sorted, without duplicates. */
  function SortedIds(ids: seq<nat>): seq<nat> {
    if ids == [] then [] else InsertId(SortedIds(ids[..|ids| - 1]), ids[|ids| - 1])
  }

  lemma {:induction false} InsertIdSpec(ids: seq<nat>, id: nat)
    requires Increasing(ids)
    ensures Increasing(InsertId(ids, id))
    ensures forall x :: x in InsertId(ids, id) <==> x in ids || x == id
  {
    if ids != [] {
      var n := |ids| - 1;
      assert ids == ids[..n] + [ids[n]];
      if ids[n] > id {
        InsertIdSpec(ids[..n], id);
        AppendLarger(InsertId(ids[..n], id), ids[n]);
      } else if ids[n] < id {
        AppendLarger(ids, id);
      }
    }
  }

  lemma AppendLarger(ids: seq<nat>, x: nat)
    requires Increasing(ids) && forall id | id in ids :: id < x
    ensures Increasing(ids + [x])
  {
    assert forall i | 0 <= i < |ids| :: ids[i] in ids;
  }

  lemma {:induction false} SortedIdsSpec(ids: seq<nat>)
    ensures Increasing(SortedIds(ids))
    ensures forall x :: x in SortedIds(ids) <==> x in ids
  {
    if ids != [] {
      var n := |ids| - 1;
      SortedIdsSpec(ids[..n]);
      InsertIdSpec(SortedIds(ids[..n]), ids[n]);
    }
  }

  function IdOf(p: Persisted, row: Row): Option<nat> {
    if row != [] && row[0].EntityRef? && row[0].entityType == p.entityType then Some(row[0].id) else None
  }

  function DecodeIds(p: Persisted, rows: seq<Row>): Result<seq<nat>, DeleteError> {
    if rows == [] then Ok([])
    else
      var rest :- DecodeIds(p, rows[..|rows| - 1]);
      var id := IdOf(p, rows[|rows| - 1]);
      if id.None? then Err(NotAnIdentity) else Ok(rest + [id.value])
  }

  lemma {:induction false} DecodeIdsSpec(p: Persisted, rows: seq<Row>)
    ensures DecodeIds(p, rows).Ok? <==> forall row | row in rows :: IdOf(p, row).Some?
    ensures DecodeIds(p, rows).Ok? ==> forall id :: id in DecodeIds(p, rows).value <==> exists row :: row in rows && IdOf(p, row) == Some(id)
  {
    if rows != [] {
      var n := |rows| - 1;
      DecodeIdsSpec(p, rows[..n]);
      assert rows == rows[..n] + [rows[n]];
    }
  }

  function SelectedIds(g: Gamma, db: Database, query: RelExpr, column: nat, p: Persisted): Result<seq<nat>, DeleteError> {
    var projected := Eval(Project(query, [column]), db, g);
    if projected.Err? then Err(QueryFailed(projected.error)) else
      var ids :- DecodeIds(p, projected.value.rows);
      Ok(SortedIds(ids))
  }

  // ----- The plan -----

  function RemoveRows(plan: PlanModel.PlanData, r: RelationId, rows: seq<Row>, action: Option<PlanModel.Action>): PlanModel.PlanData {
    if rows == [] then plan
    else PlanModel.AddRow(RemoveRows(plan, r, rows[..|rows| - 1], action), r, PlanModel.Removing, rows[|rows| - 1], action)
  }

  /** Removes the rows in order, each annotated as given, and touches nothing else. */
  lemma {:induction false} RemoveRowsTagged(plan: PlanModel.PlanData, r: RelationId, rows: seq<Row>, action: Option<PlanModel.Action>,
                                            r': RelationId, d: PlanModel.Direction)
    requires PlanLaws.Anchored(plan)
    ensures PlanLaws.Anchored(RemoveRows(plan, r, rows, action))
    ensures var more := seq(|rows|, i requires 0 <= i < |rows| => (rows[i], action));
            PlanLaws.Tagged(RemoveRows(plan, r, rows, action), r', d)
            == PlanLaws.Tagged(plan, r', d) + if r' == r && d.Removing? then more else []
  {
    hide PlanLaws.Anchored, PlanLaws.Tagged, PlanModel.AddRow;
    if rows != [] {
      var n := |rows| - 1;
      RemoveRowsTagged(plan, r, rows[..n], action, r', d);
      var before := RemoveRows(plan, r, rows[..n], action);
      PlanLaws.AddRowAnchored(before, r, PlanModel.Removing, rows[n], action);
      PlanLaws.AddRowTagged(before, r, PlanModel.Removing, rows[n], action, r', d);
      var most := seq(n, i requires 0 <= i < n => (rows[i], action));
      assert seq(|rows[..n]|, i requires 0 <= i < |rows[..n]| => (rows[..n][i], action)) == most;
      assert seq(|rows|, i requires 0 <= i < |rows| => (rows[i], action)) == most + [(rows[n], action)];
    }
  }

  function RegisterOwned(plan: PlanModel.PlanData, o: Owned): PlanModel.PlanData {
    plan.(contracts := if o.targetContract.Some? then plan.contracts[o.target := o.targetContract.value] else plan.contracts,
          owned := plan.owned[o.relation := o.contract])
  }

  function Registered(plan: PlanModel.PlanData, owned: seq<Owned>): PlanModel.PlanData {
    if owned == [] then plan else RegisterOwned(Registered(plan, owned[..|owned| - 1]), owned[|owned| - 1])
  }

  predicate SchemaOk(p: Persisted) {
    forall o | o in p.owned :: o.valid
  }

  /** The plan before any row: the contract of the objects deleted and those of what they own. */
  function Contracted(snapshot: PlanModel.Snapshot, p: Persisted): PlanModel.PlanData {
    Registered(PlanModel.EmptyPlan(snapshot).(contracts := map[p.relation := p.contract]), p.owned)
  }

  predicate TargetsOf(o: Owned, r: RelationId) {
    o.target == r && o.targetContract.Some?
  }

  /** Of several relationships declared over one relation the last one registered stands, and one that nothing was
      registered over stays; nothing but contracts changes. */
  lemma {:induction false} RegisteredSpec(plan: PlanModel.PlanData, owned: seq<Owned>, r: RelationId)
    ensures var after := Registered(plan, owned);
            && after == plan.(contracts := after.contracts, owned := after.owned)
            && (r in after.owned <==> r in plan.owned || exists o :: o in owned && o.relation == r)
            && (forall i | 0 <= i < |owned| && owned[i].relation == r && (forall j | i < j < |owned| :: owned[j].relation != r) ::
                  r in after.owned && after.owned[r] == owned[i].contract)
            && (r in plan.owned && (forall o | o in owned :: o.relation != r) ==> after.owned[r] == plan.owned[r])
  {
    if owned != [] {
      var n := |owned| - 1;
      assert owned == owned[..n] + [owned[n]];
      RegisteredSpec(plan, owned[..n], r);
    }
  }

  /** The same for the contracts of the objects: those of the targets, over what was there. */
  lemma {:induction false} RegisteredContracts(plan: PlanModel.PlanData, owned: seq<Owned>, r: RelationId)
    ensures var after := Registered(plan, owned).contracts;
            && (r in after <==> r in plan.contracts || exists o :: o in owned && TargetsOf(o, r))
            && (forall i | 0 <= i < |owned| && TargetsOf(owned[i], r) && (forall j | i < j < |owned| :: !TargetsOf(owned[j], r)) ::
                  r in after && after[r] == owned[i].targetContract.value)
            && (r in plan.contracts && (forall o | o in owned :: !TargetsOf(o, r)) ==> after[r] == plan.contracts[r])
  {
    if owned != [] {
      hide TargetsOf;
      var n := |owned| - 1;
      assert owned == owned[..n] + [owned[n]] && owned[n] in owned;
      RegisteredContracts(plan, owned[..n], r);
      ContractsAfter(Registered(plan, owned[..n]), owned[n], r);
    }
  }

  lemma ContractsAfter(plan: PlanModel.PlanData, o: Owned, r: RelationId)
    ensures var after := RegisterOwned(plan, o).contracts;
            && (r in after <==> r in plan.contracts || TargetsOf(o, r))
            && (TargetsOf(o, r) ==> o.targetContract.Some? && r in after && after[r] == o.targetContract.value)
            && (!TargetsOf(o, r) && r in plan.contracts ==> after[r] == plan.contracts[r])
  {
  }

  /** The contract of the objects deleted stands unless they own objects of their own relation, and every owned target
      with a contract has the last one declared for it. */
  lemma ContractedSpec(snapshot: PlanModel.Snapshot, p: Persisted, r: RelationId)
    ensures var contracts := Contracted(snapshot, p).contracts;
            && (r in contracts <==> r == p.relation || exists o :: o in p.owned && TargetsOf(o, r))
            && ((forall o | o in p.owned :: !TargetsOf(o, p.relation)) ==> p.relation in contracts && contracts[p.relation] == p.contract)
            && (forall i | 0 <= i < |p.owned| && TargetsOf(p.owned[i], r) && (forall j | i < j < |p.owned| :: !TargetsOf(p.owned[j], r)) ::
                  r in contracts && contracts[r] == p.owned[i].targetContract.value)
  {
    hide Registered, TargetsOf;
    var start := PlanModel.EmptyPlan(snapshot).(contracts := map[p.relation := p.contract]);
    RegisteredContracts(start, p.owned, r);
    RegisteredContracts(start, p.owned, p.relation);
  }

  /** The plan a deletion proposes, or why it proposes none. */
  function Deletion(g: Gamma, db: Database, query: RelExpr, identity: Option<nat>, exactShape: bool, p: Persisted,
                    snapshot: PlanModel.Snapshot): Result<PlanModel.PlanData, DeleteError>
  {
    if identity.None? then
      if !exactShape then Err(PartialValueObject) else
        var selected := Eval(query, db, g);
        if selected.Err? then Err(QueryFailed(selected.error))
        else Ok(RemoveRows(PlanModel.EmptyPlan(snapshot), p.relation, selected.value.rows, None))
    else
      var ids :- SelectedIds(g, db, query, identity.value, p);
      if !SchemaOk(p) then Err(InvalidSchema)
      else if ids == [] then Ok(Contracted(snapshot, p)) else
        var found := Eval(SelectAll(p, ids), db, g);
        if found.Err? then Err(QueryFailed(found.error))
        else if |found.value.rows| != |ids| then Err(CountMismatch)
        else Ok(RemoveRows(Contracted(snapshot, p), p.relation, found.value.rows, Some(PlanModel.ObjectDelete)))
  }

  method RemoveEach(plan: PlanBuilder.Plan, r: RelationId, rows: seq<Row>, action: Option<PlanModel.Action>)
    modifies plan
    ensures plan.State() == RemoveRows(old(plan.State()), r, rows, action)
  {
    for i := 0 to |rows|
      invariant plan.State() == RemoveRows(old(plan.State()), r, rows[..i], action)
    {
      assert rows[..i + 1][..i] == rows[..i];
      if action.None? { plan.Remove(r, rows[i]); } else { plan.RemoveSemantic(r, rows[i], action.value); }
    }
    assert rows[..|rows|] == rows;
  }

  method RegisterRelationships(plan: PlanBuilder.Plan, owned: seq<Owned>) returns (ok: bool)
    modifies plan
    ensures ok <==> forall o | o in owned :: o.valid
    ensures ok ==> plan.State() == Registered(old(plan.State()), owned)
  {
    for i := 0 to |owned|
      invariant forall o | o in owned[..i] :: o.valid
      invariant plan.State() == Registered(old(plan.State()), owned[..i])
    {
      assert owned[..i + 1] == owned[..i] + [owned[i]];
      if !owned[i].valid { return false; }
      if owned[i].targetContract.Some? {
        plan.contracts := plan.contracts[owned[i].target := owned[i].targetContract.value];
      }
      plan.owned := plan.owned[owned[i].relation := owned[i].contract];
    }
    assert owned[..|owned|] == owned;
    ok := true;
  }

  method DeletePlan(g: Gamma, db: Database, query: RelExpr, identity: Option<nat>, exactShape: bool, p: Persisted,
                    snapshot: PlanModel.Snapshot) returns (plan: PlanBuilder.Plan?, error: Option<DeleteError>)
    ensures var r := Deletion(g, db, query, identity, exactShape, p, snapshot);
            if r.Err? then plan == null && error == Some(r.error) else plan != null && plan.State() == r.value && error == None
  {
    hide Eval, SelectAll, RemoveRows, SelectedIds, Registered;
    if identity.None? {
      if !exactShape { return null, Some(PartialValueObject); }
      var selected := Eval(query, db, g);
      if selected.Err? { return null, Some(QueryFailed(selected.error)); }
      plan := new PlanBuilder.Plan(snapshot);
      RemoveEach(plan, p.relation, selected.value.rows, None);
      return plan, None;
    }
    var ids := SelectedIds(g, db, query, identity.value, p);
    if ids.Err? { return null, Some(ids.error); }
    plan := new PlanBuilder.Plan(snapshot);
    plan.contracts := plan.contracts[p.relation := p.contract];
    var ok := RegisterRelationships(plan, p.owned);
    if !ok { return null, Some(InvalidSchema); }
    if ids.value == [] { return plan, None; }
    var lookup := BuildSelectAll(p, ids.value);
    var found := Eval(lookup, db, g);
    if found.Err? { return null, Some(QueryFailed(found.error)); }
    if |found.value.rows| != |ids.value| { return null, Some(CountMismatch); }
    RemoveEach(plan, p.relation, found.value.rows, Some(PlanModel.ObjectDelete));
    error := None;
  }

  // ----- What a deletion leaves alone, and its errors -----

  lemma {:induction false} RemoveRowsFrame(plan: PlanModel.PlanData, r: RelationId, rows: seq<Row>, action: Option<PlanModel.Action>)
    ensures var after := RemoveRows(plan, r, rows, action);
            after == plan.(mutations := after.mutations, actions := after.actions)
  {
    if rows != [] { RemoveRowsFrame(plan, r, rows[..|rows| - 1], action); }
  }

  lemma EmptyIsBare(snapshot: PlanModel.Snapshot)
    ensures PlanLaws.Anchored(PlanModel.EmptyPlan(snapshot))
    ensures forall r, d :: PlanLaws.Tagged(PlanModel.EmptyPlan(snapshot), r, d) == []
  {
  }

  /** A deletion removes rows of the object's relation only, inserts none, and proposes nothing else; with an identity it
      carries the contracts of what it deletes and owns, without one it carries none. */
  lemma DeletionFrame(g: Gamma, db: Database, query: RelExpr, identity: Option<nat>, exactShape: bool, p: Persisted,
                      snapshot: PlanModel.Snapshot, r: RelationId, d: PlanModel.Direction)
    requires Deletion(g, db, query, identity, exactShape, p, snapshot).Ok?
    ensures var plan := Deletion(g, db, query, identity, exactShape, p, snapshot).value;
            && (r != p.relation || d.Inserting? ==> PlanLaws.Tagged(plan, r, d) == [])
            && plan.snapshot == snapshot && plan.objectPatches == map[] && plan.delta == None && plan.history == map[]
            && (identity.None? ==> plan.contracts == map[] && plan.owned == map[])
            && (identity.Some? ==> plan.contracts == Contracted(snapshot, p).contracts && plan.owned == Contracted(snapshot, p).owned)
  {
    hide Eval, SelectAll, PlanLaws.Tagged, PlanLaws.Anchored, SelectedIds, RemoveRows, Registered;
    EmptyIsBare(snapshot);
    ContractedIsBare(snapshot, p);
    RegisteredSpec(PlanModel.EmptyPlan(snapshot).(contracts := map[p.relation := p.contract]), p.owned, r);
    if identity.None? {
      var rows := Eval(query, db, g).value.rows;
      RemoveRowsTagged(PlanModel.EmptyPlan(snapshot), p.relation, rows, None, r, d);
      RemoveRowsFrame(PlanModel.EmptyPlan(snapshot), p.relation, rows, None);
    } else {
      var ids := SelectedIds(g, db, query, identity.value, p).value;
      if ids != [] {
        var rows := Eval(SelectAll(p, ids), db, g).value.rows;
        RemoveRowsTagged(Contracted(snapshot, p), p.relation, rows, Some(PlanModel.ObjectDelete), r, d);
        RemoveRowsFrame(Contracted(snapshot, p), p.relation, rows, Some(PlanModel.ObjectDelete));
      }
    }
  }

  /** Without an identity: granted exactly when the shape is exact and the query evaluates; then it removes exactly the
      query's rows, in order and without annotation. */
  lemma DeletesValues(g: Gamma, db: Database, query: RelExpr, exactShape: bool, p: Persisted, snapshot: PlanModel.Snapshot)
    ensures var r, found := Deletion(g, db, query, None, exactShape, p, snapshot), Eval(query, db, g);
            && (r == Err(PartialValueObject) <==> !exactShape)
            && (forall e :: r == Err(QueryFailed(e)) <==> exactShape && found == Err(e))
            && (r.Ok? <==> exactShape && found.Ok?)
            && (r.Ok? ==>
                  var removed, rows := PlanLaws.Tagged(r.value, p.relation, PlanModel.Removing), found.value.rows;
                  |removed| == |rows| && forall i | 0 <= i < |rows| :: removed[i] == (rows[i], None))
  {
    hide Eval, PlanLaws.Tagged, PlanLaws.Anchored, RemoveRows;
    EmptyIsBare(snapshot);
    if exactShape && Eval(query, db, g).Ok? {
      RemoveRowsTagged(PlanModel.EmptyPlan(snapshot), p.relation, Eval(query, db, g).value.rows, None, p.relation, PlanModel.Removing);
    }
  }

  /** With an identity: an error of the query is passed on, and a selected cell that is not an identity of the type is
      refused, before anything else. */
  lemma SelectionErrors(g: Gamma, db: Database, query: RelExpr, column: nat, exactShape: bool, p: Persisted, snapshot: PlanModel.Snapshot)
    ensures var r, found := Deletion(g, db, query, Some(column), exactShape, p, snapshot), Eval(Project(query, [column]), db, g);
            && (forall e | found == Err(e) :: r == Err(QueryFailed(e)))
            && (r == Err(NotAnIdentity)
                <==> found.Ok? && exists row: Row :: row in found.value.rows
                                    && !(row != [] && row[0].EntityRef? && row[0].entityType == p.entityType))
  {
    hide Eval, SelectAll, RemoveRows, Contracted;
    var found := Eval(Project(query, [column]), db, g);
    if found.Ok? {
      DecodeIdsSpec(p, found.value.rows);
      DecodeFails(p, found.value.rows);
    }
  }

  lemma {:induction false} DecodeFails(p: Persisted, rows: seq<Row>)
    ensures DecodeIds(p, rows).Err? ==> DecodeIds(p, rows).error == NotAnIdentity
  {
    if rows != [] { DecodeFails(p, rows[..|rows| - 1]); }
  }

  /** A deletion is granted exactly when the declarations are in order and the stored rows of the selected identities
      are, added up, as many as the identities. Where all of these resolve, as they do for queries over the object's
      own relation, that is: exactly when each has one stored row. The plan then removes, as object deletions, exactly
      the stored rows with a selected identity, one for each. */
  lemma DeletesSelected(g: Gamma, db: Database, query: RelExpr, column: nat, exactShape: bool, p: Persisted,
                        snapshot: PlanModel.Snapshot)
    requires p.relation in db && TableOk(g, db[p.relation]) && p.column < |db[p.relation].equivs|
    requires ExactIdentity(g, p) && SelectedIds(g, db, query, column, p).Ok?
    ensures var rows, ids := db[p.relation].rows, SelectedIds(g, db, query, column, p).value;
            var r := Deletion(g, db, query, Some(column), exactShape, p, snapshot);
            && (r == Err(InvalidSchema) <==> !SchemaOk(p))
            && (r == Err(CountMismatch) <==> SchemaOk(p) && TotalStored(g, p, rows, ids) != |ids|)
            && (r.Ok? <==> SchemaOk(p) && TotalStored(g, p, rows, ids) == |ids|)
            && (AllResolve(g, p, rows, ids) ==>
                  (r.Ok? <==> SchemaOk(p) && forall id | id in ids :: |StoredUnder(g, p, rows, id)| == 1))
            && (UniqueIdentity(g, p, rows) ==> (r.Ok? <==> SchemaOk(p) && AllResolve(g, p, rows, ids)))
            && (r.Ok? ==>
                  var removed := PlanLaws.Tagged(r.value, p.relation, PlanModel.Removing);
                  && |removed| == |ids|
                  && (forall i | 0 <= i < |removed| :: removed[i].1 == Some(PlanModel.ObjectDelete))
                  && (forall row :: (row, Some(PlanModel.ObjectDelete)) in removed <==> row in rows && MatchesAny(g, p, row, ids)))
  {
    hide Eval, SelectAll, PlanLaws.Tagged, PlanLaws.Anchored, SelectedIds, Contracted, UniqueIdentity, ExactIdentity, TableOk, RemoveRows,
         Matches, TotalStored, StoredUnder, Resolves;
    var rows, ids := db[p.relation].rows, SelectedIds(g, db, query, column, p).value;
    SelectedAreIncreasing(g, db, query, column, p);
    ContractedIsBare(snapshot, p);
    TotalOfNone(g, p, rows);
    if AllResolve(g, p, rows, ids) { TotalOfResolved(g, p, rows, ids); }
    if UniqueIdentity(g, p, rows) { TotalIsLengthIff(g, p, rows, ids); }
    if ids != [] {
      CountCheck(g, db, p, ids);
      SelectAllEval(g, db, p, ids);
      var found := Eval(SelectAll(p, ids), db, g).value.rows;
      RemoveRowsTagged(Contracted(snapshot, p), p.relation, found, Some(PlanModel.ObjectDelete), p.relation, PlanModel.Removing);
      var tagged := seq(|found|, i requires 0 <= i < |found| => (found[i], Some(PlanModel.ObjectDelete)));
      AllTagged(found, Some(PlanModel.ObjectDelete), tagged);
    }
  }

  lemma TotalOfNone(g: Gamma, p: Persisted, rows: seq<Row>)
    ensures TotalStored(g, p, rows, []) == 0
  {
  }

  lemma AllTagged(rows: seq<Row>, action: Option<PlanModel.Action>, tagged: seq<(Row, Option<PlanModel.Action>)>)
    requires |tagged| == |rows| && forall i | 0 <= i < |rows| :: tagged[i] == (rows[i], action)
    ensures forall row :: (row, action) in tagged <==> row in rows
  {
    forall row ensures (row, action) in tagged <==> row in rows {
      if row in rows {
        var i :| 0 <= i < |rows| && rows[i] == row;
        assert tagged[i] == (row, action);
      }
    }
  }

  lemma ContractedIsBare(snapshot: PlanModel.Snapshot, p: Persisted)
    ensures PlanLaws.Anchored(Contracted(snapshot, p))
    ensures forall r, d :: PlanLaws.Tagged(Contracted(snapshot, p), r, d) == []
  {
    hide Registered;
    RegisteredSpec(PlanModel.EmptyPlan(snapshot).(contracts := map[p.relation := p.contract]), p.owned, 0);
  }

  lemma SelectedAreIncreasing(g: Gamma, db: Database, query: RelExpr, column: nat, p: Persisted)
    requires SelectedIds(g, db, query, column, p).Ok?
    ensures Increasing(SelectedIds(g, db, query, column, p).value)
  {
    hide Eval;
    SortedIdsSpec(DecodeIds(p, Eval(Project(query, [column]), db, g).value.rows).value);
  }

  // ----- From the query to the rows -----

  /** Every cell of the column is an identity of the object type. */
  ghost predicate IdentityColumn(t: Table, column: nat, entityType: nat) {
    && column < |t.equivs|
    && forall row: Row | row in t.rows :: column < |row| && row[column].EntityRef? && row[column].entityType == entityType
  }

  ghost predicate Names(t: Table, column: nat, id: nat) {
    exists row: Row :: row in t.rows && column < |row| && row[column].EntityRef? && row[column].id == id
  }

  lemma ProjectedIds(g: Gamma, t: Table, column: nat, p: Persisted, id: nat)
    requires IdentityColumn(t, column, p.entityType) && ExactIdentity(g, p.(equiv := t.equivs[column]))
    ensures var rows := ProjectTable(g, t, [column]).rows;
            && (forall row | row in rows :: IdOf(p, row).Some?)
            && ((exists row :: row in rows && IdOf(p, row) == Some(id)) <==> Names(t, column, id))
  {
    hide DistinctRows;
    var equivs, all := ProjectEquivs(t.equivs, [column]), ProjectRows(t.rows, [column]);
    ProjectRowsSpec(t.rows, [column]);
    DistinctRowsSpec(g, equivs, all);
    var rows := DistinctRows(g, equivs, all);
    forall row | row in rows ensures IdOf(p, row).Some? && Names(t, column, IdOf(p, row).value) {
      var r: Row :| r in t.rows && row == ProjectRow(r, [column]);
      assert row[0] == r[column];
    }
    if r: Row :| r in t.rows && column < |r| && r[column].EntityRef? && r[column].id == id {
      var k := ProjectRow(r, [column]);
      var d := Representative(g, equivs, all, k);
      assert RowKey(g, equivs, d)[0] == RowKey(g, equivs, k)[0];
      assert IdOf(p, d) == Some(id);
    }
  }

  /** The looked-up identities are exactly those of the rows the query selects. */
  lemma SelectedIdsSpec(g: Gamma, db: Database, query: RelExpr, column: nat, p: Persisted, t: Table, id: nat)
    requires Eval(query, db, g) == Ok(t) && IdentityColumn(t, column, p.entityType)
    requires ExactIdentity(g, p.(equiv := t.equivs[column]))
    ensures SelectedIds(g, db, query, column, p).Ok?
    ensures id in SelectedIds(g, db, query, column, p).value <==> Names(t, column, id)
  {
    hide DistinctRows, ExactIdentity, ProjectTable;
    assert Eval(Project(query, [column]), db, g) == Ok(ProjectTable(g, t, [column]));
    hide Eval;
    var rows := ProjectTable(g, t, [column]).rows;
    ProjectedIds(g, t, column, p, id);
    DecodeIdsSpec(p, rows);
    SortedIdsSpec(DecodeIds(p, rows).value);
  }

  /** Every selected row carries the identity of a stored one. */
  ghost predicate OwnRows(g: Gamma, p: Persisted, rows: seq<Row>, t: Table, column: nat) {
    forall id | Names(t, column, id) :: Resolves(g, p, rows, id)
  }

  /** Deleting what a query selects removes exactly the stored rows whose identity is that of a selected row. Where the
      selected identities are those of stored rows, it is granted exactly when each of them is stored once. */
  lemma DeletesQueried(g: Gamma, db: Database, query: RelExpr, column: nat, exactShape: bool, p: Persisted,
                       snapshot: PlanModel.Snapshot, t: Table, row: Row)
    requires p.relation in db && TableOk(g, db[p.relation]) && p.column < |db[p.relation].equivs|
    requires ExactIdentity(g, p)
    requires Eval(query, db, g) == Ok(t) && IdentityColumn(t, column, p.entityType)
    requires ExactIdentity(g, p.(equiv := t.equivs[column]))
    ensures var r, rows := Deletion(g, db, query, Some(column), exactShape, p, snapshot), db[p.relation].rows;
            && (r.Ok? || r == Err(InvalidSchema) || r == Err(CountMismatch))
            && (r == Err(InvalidSchema) <==> !SchemaOk(p))
            && (OwnRows(g, p, rows, t, column) ==>
                  (r.Ok? <==> SchemaOk(p) && forall id | Names(t, column, id) :: |StoredUnder(g, p, rows, id)| == 1))
            && (UniqueIdentity(g, p, rows) ==> (r.Ok? <==> SchemaOk(p) && OwnRows(g, p, rows, t, column)))
            && (r.Ok? ==>
                  ((row, Some(PlanModel.ObjectDelete)) in PlanLaws.Tagged(r.value, p.relation, PlanModel.Removing)
                   <==> row in rows && exists id :: Names(t, column, id) && Matches(g, p, row, id)))
  {
    hide *;
    var ids, rows := SelectedIds(g, db, query, column, p), db[p.relation].rows;
    forall id ensures ids.Ok?
              ensures id in ids.value <==> Names(t, column, id) {
      SelectedIdsSpec(g, db, query, column, p, t, id);
    }
    SelectedIdsSpec(g, db, query, column, p, t, 0);
    DeletesSelected(g, db, query, column, exactShape, p, snapshot);
    SameIds(g, p, rows, t, column, ids.value);
    MatchesAnyIs(g, p, row, ids.value);
  }

  lemma SameIds(g: Gamma, p: Persisted, rows: seq<Row>, t: Table, column: nat, ids: seq<nat>)
    requires forall id :: id in ids <==> Names(t, column, id)
    ensures AllResolve(g, p, rows, ids) <==> OwnRows(g, p, rows, t, column)
  {
    hide Resolves, Names;
  }

  lemma MatchesAnyIs(g: Gamma, p: Persisted, row: Row, ids: seq<nat>)
    ensures MatchesAny(g, p, row, ids) <==> exists id :: id in ids && Matches(g, p, row, id)
  {
  }
}
