/** Composing undo plans with other plans. */
module UndoComposition {
  import opened Wrappers
  import opened PlanModel
  import opened PlanLaws
  import opened PlanAssociativity
  import opened Undo

  /** The plan that undoes the changes and restores the model complement. */
  function Undone(snapshot: Snapshot, changes: seq<Change>, complement: Option<Delta>): PlanData {
    UndoChanges(EmptyPlan(snapshot), changes).(delta := complement)
  }

  ghost predicate HasRows(changes: seq<Change>, r: RelationId) {
    RowsOf(changes, r, Inserting) != [] || RowsOf(changes, r, Removing) != []
  }

  /** Every relation whose undoing calls for authorization has rows to undo. */
  ghost predicate RecordedWithRows(changes: seq<Change>) {
    forall c | c in changes && Recorded(c) :: HasRows(changes, c.relation)
  }

  /** Undo plans carry no annotations, and mutate a relation exactly when they hold rows of it. */
  ghost predicate Plain(p: PlanData) {
    p.actions == map[] && forall r :: r in p.mutations <==> Rows(p, r, Inserting) != [] || Rows(p, r, Removing) != []
  }

  lemma {:induction false} AddRowsPlain(p: PlanData, r: RelationId, d: Direction, rows: seq<Row>)
    requires Plain(p)
    ensures Plain(AddRows(p, r, d, rows))
  {
    if rows != [] { AddRowsPlain(p, r, d, rows[..|rows| - 1]); }
  }

  lemma {:induction false} UndoPlain(snapshot: Snapshot, changes: seq<Change>)
    ensures Plain(UndoChanges(EmptyPlan(snapshot), changes))
  {
    if changes != [] {
      hide AddRows;
      var n := |changes| - 1;
      var before, c := UndoChanges(EmptyPlan(snapshot), changes[..n]), changes[n];
      UndoPlain(snapshot, changes[..n]);
      AddRowsPlain(before, c.relation, Removing, c.inserted);
      AddRowsPlain(AddRows(before, c.relation, Removing, c.inserted), c.relation, Inserting, c.removed);
    }
  }

  lemma {:induction false} CoveredIff(changes: seq<Change>, r: RelationId)
    ensures CoverageFor(changes, r).Some? <==> exists c :: c in changes && Recorded(c) && c.relation == r
  {
    if changes != [] {
      var n := |changes| - 1;
      CoveredIff(changes[..n], r);
      assert changes == changes[..n] + [changes[n]];
    }
  }

  lemma UndoMutates(snapshot: Snapshot, changes: seq<Change>, r: RelationId)
    ensures r in UndoChanges(EmptyPlan(snapshot), changes).mutations <==> HasRows(changes, r)
  {
    hide UndoChanges, RowsOf, Rows;
    UndoPlain(snapshot, changes);
    UndoRows(snapshot, changes, r, Inserting);
    UndoRows(snapshot, changes, r, Removing);
  }

  lemma UndoWellBuilt(snapshot: Snapshot, changes: seq<Change>, complement: Option<Delta>)
    requires SortedDelta(complement)
    ensures WellBuilt(Undone(snapshot, changes, complement))
    ensures CoverageNamed(Undone(snapshot, changes, complement)) <==> RecordedWithRows(changes)
  {
    hide UndoChanges, CoverageFor, HasRows;
    var p := UndoChanges(EmptyPlan(snapshot), changes);
    UndoPlain(snapshot, changes);
    forall r
      ensures r in p.mutations <==> HasRows(changes, r)
      ensures r in p.history <==> exists c :: c in changes && Recorded(c) && c.relation == r
    {
      UndoMutates(snapshot, changes, r);
      UndoCoverage(snapshot, changes, r);
      CoveredIff(changes, r);
    }
  }

  /** An undo plan composes associatively with whatever comes before and after, and is unchanged behind the empty
      plan, exactly when every recorded relation has rows to undo. */
  lemma UndoComposesIff(snapshot: Snapshot, changes: seq<Change>, complement: Option<Delta>)
    requires SortedDelta(complement)
    ensures var q := Undone(snapshot, changes, complement);
            && (RecordedWithRows(changes) <==> forall p, s | WellBuilt(p) && WellBuilt(s) :: GroupingsAgree(p, q, s))
            && (RecordedWithRows(changes) <==> Compose(EmptyPlan(snapshot), q) == Ok(q))
  {
    hide UndoChanges, Compose, GroupingsAgree, RecordedWithRows, CoverageNamed, Anchored;
    var q := Undone(snapshot, changes, complement);
    UndoWellBuilt(snapshot, changes, complement);
    UndoSnapshot(EmptyPlan(snapshot), changes);
    AssociativeIff(q);
    EmptyIsLeftUnitIff(q);
  }

  lemma {:induction false} AddRowsKeepsSnapshot(p: PlanData, r: RelationId, d: Direction, rows: seq<Row>)
    ensures AddRows(p, r, d, rows).snapshot == p.snapshot
  {
    if rows != [] { AddRowsKeepsSnapshot(p, r, d, rows[..|rows| - 1]); }
  }

  lemma {:induction false} UndoSnapshot(p: PlanData, changes: seq<Change>)
    ensures UndoChanges(p, changes).snapshot == p.snapshot
  {
    if changes != [] {
      hide AddRows;
      var n := |changes| - 1;
      var before, c := UndoChanges(p, changes[..n]), changes[n];
      UndoSnapshot(p, changes[..n]);
      AddRowsKeepsSnapshot(before, c.relation, Removing, c.inserted);
      AddRowsKeepsSnapshot(AddRows(before, c.relation, Removing, c.inserted), c.relation, Inserting, c.removed);
    }
  }

  function RowsIn(c: Change, r: RelationId, d: Direction): seq<Row> {
    if c.relation != r then [] else if d.Inserting? then c.inserted else c.removed
  }

  lemma RowsOfTwo(first: Change, second: Change, r: RelationId, d: Direction)
    ensures RowsOf([first, second], r, d) == RowsIn(first, r, d) + RowsIn(second, r, d)
  {
    assert [first, second][..1] == [first] && [first][..0] == [];
    assert RowsOf([first], r, d) == RowsOf([], r, d) + RowsIn(first, r, d);
  }

  /** An entry that wrote one relation and was authorized for another without touching its rows. Commits record no such
      entry, but a decoded log can hold one. Its undo plan is granted, loses the second coverage behind the empty
      plan, and depends on grouping. */
  lemma UntouchedAuthorizationSplits(snapshot: Snapshot, row: Row)
    ensures var write := NO_AUTHORIZATION.(relationWrite := true);
            var entry := Entry(5, ExactPlanInverse, [Change(1, [row], [], [], write), Change(2, [], [], [], write)], None);
            var q := Undone(snapshot, entry.changes, None);
            && Obstacle(entry, true, true, Some(snapshot), 5, false) == None
            && WellBuilt(q) && !CoverageNamed(q)
            && Compose(EmptyPlan(snapshot), q) != Ok(q)
            && !GroupingsAgree(EmptyPlan(snapshot), q, AddRow(EmptyPlan(snapshot), 2, Inserting, row, None))
  {
    hide UndoChanges, Compose, GroupingsAgree, Anchored;
    var write := NO_AUTHORIZATION.(relationWrite := true);
    var first, second := Change(1, [row], [], [], write), Change(2, [], [], [], write);
    var changes := [first, second];
    RowsOfTwo(first, second, 1, Inserting);
    RowsOfTwo(first, second, 2, Inserting);
    RowsOfTwo(first, second, 2, Removing);
    hide RowsOf;
    assert RowsOf(changes, 1, Inserting) == [row] && !HasRows(changes, 2);
    assert changes[1] == second && second in changes && Recorded(second);
    UndoComposesIff(snapshot, changes, None);
    UndoWellBuilt(snapshot, changes, None);
    UndoSnapshot(EmptyPlan(snapshot), changes);
    UndoMutates(snapshot, changes, 2);
    UndoCoverage(snapshot, changes, 2);
    UnnamedCoverageSplits(Undone(snapshot, changes, None), 2, row);
  }
}
