/** Compensating plans for history entries. */
module Undo {
  import opened Wrappers
  import opened PlanModel
  import opened PlanBuilder

  datatype Change = Change(
    relation: RelationId,
    inserted: seq<Row>,
    removed: seq<Row>,
    fieldWrites: seq<nat>,
    authorization: Authorization)

  datatype Reversibility = ExactPlanInverse | ComplementRequired | NonPlanTransition

  datatype Entry = Entry(
    target: nat,
    reversibility: Reversibility,
    changes: seq<Change>,
    modelComplement: Option<Delta>)

  datatype UndoError = NotWritable | NonReversible | RuntimeClosed | SnapshotFailed | RebaseConflict

  const NO_AUTHORIZATION := Authorization(false, false, false, false, false, false)

  /** Creating and deleting, attaching and detaching change places; writing and moving stay. */
  function Inverted(a: Authorization): Authorization {
    a.(objectCreate := a.objectDelete,
       objectDelete := a.objectCreate,
       relationshipAttach := a.relationshipDetach,
       relationshipDetach := a.relationshipAttach)
  }

  function InvertedChange(c: Change): Change {
    c.(inserted := c.removed, removed := c.inserted, authorization := Inverted(c.authorization))
  }

  function InvertedAll(changes: seq<Change>): (inverted: seq<Change>)
    ensures |inverted| == |changes| && forall i | 0 <= i < |changes| :: inverted[i] == InvertedChange(changes[i])
  {
    if changes == [] then []
    else InvertedAll(changes[..|changes| - 1]) + [InvertedChange(changes[|changes| - 1])]
  }

  // ----- The plan that is built -----

  function AddRows(p: PlanData, r: RelationId, d: Direction, rows: seq<Row>): PlanData {
    if rows == [] then p else AddRow(AddRows(p, r, d, rows[..|rows| - 1]), r, d, rows[|rows| - 1], None)
  }

  /** Undoing the change calls for authorization. */
  predicate Recorded(c: Change) {
    Inverted(c.authorization) != NO_AUTHORIZATION || c.fieldWrites != []
  }

  function UndoChange(p: PlanData, c: Change): PlanData {
    var rows := AddRows(AddRows(p, c.relation, Removing, c.inserted), c.relation, Inserting, c.removed);
    if Recorded(c)
    then Register(rows, c.relation, Inverted(c.authorization), set f | f in c.fieldWrites)
    else rows
  }

  function UndoChanges(p: PlanData, changes: seq<Change>): PlanData {
    if changes == [] then p else UndoChange(UndoChanges(p, changes[..|changes| - 1]), changes[|changes| - 1])
  }

  /** All rows a list of changes names for a relation in one direction, in order. */
  function RowsOf(changes: seq<Change>, r: RelationId, d: Direction): seq<Row> {
    if changes == [] then []
    else
      var c := changes[|changes| - 1];
      RowsOf(changes[..|changes| - 1], r, d) + if c.relation != r then [] else if d.Inserting? then c.inserted else c.removed
  }

  function Opposite(d: Direction): Direction {
    if d.Inserting? then Removing else Inserting
  }

  lemma {:induction false} AddRowsRows(p: PlanData, r: RelationId, d: Direction, rows: seq<Row>, r': RelationId, d': Direction)
    ensures Rows(AddRows(p, r, d, rows), r', d') == Rows(p, r', d') + if r' == r && d' == d then rows else []
  {
    if rows != [] {
      AddRowsRows(p, r, d, rows[..|rows| - 1], r', d');
      assert rows == rows[..|rows| - 1] + [rows[|rows| - 1]];
    }
  }

  lemma UndoChangeRows(p: PlanData, c: Change, r: RelationId, d: Direction)
    ensures Rows(UndoChange(p, c), r, d)
         == Rows(p, r, d) + if c.relation != r then [] else if d.Inserting? then c.removed else c.inserted
  {
    hide AddRows;
    AddRowsRows(p, c.relation, Removing, c.inserted, r, d);
    AddRowsRows(AddRows(p, c.relation, Removing, c.inserted), c.relation, Inserting, c.removed, r, d);
  }

  /** The undo plan removes what the entry inserted and inserts what it removed. */
  lemma {:induction false} UndoRows(snapshot: Snapshot, changes: seq<Change>, r: RelationId, d: Direction)
    ensures Rows(UndoChanges(EmptyPlan(snapshot), changes), r, d) == RowsOf(changes, r, Opposite(d))
  {
    if changes != [] {
      hide UndoChange;
      var n := |changes| - 1;
      UndoRows(snapshot, changes[..n], r, d);
      UndoChangeRows(UndoChanges(EmptyPlan(snapshot), changes[..n]), changes[n], r, d);
    }
  }

  lemma {:induction false} InvertedRows(changes: seq<Change>, r: RelationId, d: Direction)
    ensures RowsOf(InvertedAll(changes), r, d) == RowsOf(changes, r, Opposite(d))
  {
    if changes != [] {
      var n := |changes| - 1;
      InvertedRows(changes[..n], r, d);
      assert InvertedAll(changes)[..n] == InvertedAll(changes[..n]);
    }
  }

  /** Undoing the inverse gives back the original changes: rows, field writes and authorization. */
  lemma UndoTwice(snapshot: Snapshot, changes: seq<Change>, r: RelationId, d: Direction)
    ensures InvertedAll(InvertedAll(changes)) == changes
    ensures Rows(UndoChanges(EmptyPlan(snapshot), InvertedAll(changes)), r, d) == RowsOf(changes, r, d)
  {
    UndoRows(snapshot, InvertedAll(changes), r, d);
    InvertedRows(changes, r, Opposite(d));
  }

  // ----- Effects on stored rows -----

  type Database = map<RelationId, set<Row>>

  function Stored(db: Database, r: RelationId): set<Row> {
    if r in db then db[r] else {}
  }

  /** The rows named for a relation in one direction. */
  function Named(changes: seq<Change>, r: RelationId, d: Direction): set<Row> {
    set row | row in RowsOf(changes, r, d)
  }

  function Relations(changes: seq<Change>): set<RelationId> {
    set c | c in changes :: c.relation
  }

  /** Removes the removed rows and adds the inserted ones. */
  function After(db: Database, changes: seq<Change>): Database {
    map r | r in db.Keys + Relations(changes) :: (Stored(db, r) - Named(changes, r, Removing)) + Named(changes, r, Inserting)
  }

  function AfterPlan(db: Database, p: PlanData): Database {
    map r | r in db.Keys + p.mutations.Keys ::
      (Stored(db, r) - (set row | row in Rows(p, r, Removing))) + (set row | row in Rows(p, r, Inserting))
  }

  /** Every removed row was there and every inserted row was not. */
  ghost predicate Exact(db: Database, changes: seq<Change>) {
    forall r :: Named(changes, r, Removing) <= Stored(db, r) && Named(changes, r, Inserting) !! Stored(db, r)
  }

  ghost predicate SameRows(a: Database, b: Database) {
    forall r :: Stored(a, r) == Stored(b, r)
  }

  lemma {:induction false} NamedRelations(changes: seq<Change>, r: RelationId, d: Direction)
    requires r !in Relations(changes)
    ensures RowsOf(changes, r, d) == []
  {
    if changes != [] {
      var n := |changes| - 1;
      assert changes[n] in changes && changes[n].relation in Relations(changes);
      forall c | c in changes[..n] ensures c.relation in Relations(changes) {
        assert c in changes;
      }
      NamedRelations(changes[..n], r, d);
    }
  }

  lemma StoredAfter(db: Database, changes: seq<Change>, r: RelationId)
    ensures Stored(After(db, changes), r) == (Stored(db, r) - Named(changes, r, Removing)) + Named(changes, r, Inserting)
  {
    if r !in Relations(changes) {
      NamedRelations(changes, r, Inserting);
      NamedRelations(changes, r, Removing);
    }
  }

  lemma StoredAfterPlan(db: Database, p: PlanData, r: RelationId)
    ensures Stored(AfterPlan(db, p), r)
         == (Stored(db, r) - (set row | row in Rows(p, r, Removing))) + (set row | row in Rows(p, r, Inserting))
  {
  }

  /** What the undo plan does to stored rows. */
  lemma StoredAfterUndo(db: Database, snapshot: Snapshot, changes: seq<Change>, r: RelationId)
    ensures Stored(AfterPlan(db, UndoChanges(EmptyPlan(snapshot), changes)), r)
         == (Stored(db, r) - Named(changes, r, Inserting)) + Named(changes, r, Removing)
  {
    hide AfterPlan, UndoChanges, RowsOf;
    UndoRows(snapshot, changes, r, Inserting);
    UndoRows(snapshot, changes, r, Removing);
    StoredAfterPlan(db, UndoChanges(EmptyPlan(snapshot), changes), r);
  }

  /** Row by row, what the state with the entry's effect looks like next to the state without it. */
  ghost predicate Ahead(with: Database, without: Database, changes: seq<Change>) {
    && Exact(without, changes)
    && forall r :: Stored(with, r) == (Stored(without, r) - Named(changes, r, Removing)) + Named(changes, r, Inserting)
  }

  /** No row of the one is a row of the other. */
  ghost predicate DisjointRows(a: seq<Change>, b: seq<Change>) {
    forall r, d, d' :: Named(a, r, d) !! Named(b, r, d')
  }

  function AfterAll(db: Database, effects: seq<seq<Change>>): Database {
    if effects == [] then db else After(AfterAll(db, effects[..|effects| - 1]), effects[|effects| - 1])
  }

  lemma AheadStep(with: Database, without: Database, changes: seq<Change>, effect: seq<Change>)
    requires Ahead(with, without, changes) && DisjointRows(changes, effect)
    ensures Ahead(After(with, effect), After(without, effect), changes)
  {
    hide After, Named;
    forall r
      ensures Named(changes, r, Removing) <= Stored(After(without, effect), r)
      ensures Named(changes, r, Inserting) !! Stored(After(without, effect), r)
      ensures Stored(After(with, effect), r)
           == (Stored(After(without, effect), r) - Named(changes, r, Removing)) + Named(changes, r, Inserting)
    {
      StoredAfter(with, effect, r);
      StoredAfter(without, effect, r);
      assert Named(changes, r, Removing) !! Named(effect, r, Removing);
      assert Named(changes, r, Removing) !! Named(effect, r, Inserting);
      assert Named(changes, r, Inserting) !! Named(effect, r, Removing);
      assert Named(changes, r, Inserting) !! Named(effect, r, Inserting);
    }
  }

  lemma {:induction false} AheadAll(db: Database, changes: seq<Change>, effects: seq<seq<Change>>)
    requires Exact(db, changes) && forall e | e in effects :: DisjointRows(changes, e)
    ensures Ahead(AfterAll(After(db, changes), effects), AfterAll(db, effects), changes)
  {
    hide After, Named, Stored;
    if effects == [] {
      forall r ensures Stored(After(db, changes), r) == (Stored(db, r) - Named(changes, r, Removing)) + Named(changes, r, Inserting) {
        StoredAfter(db, changes, r);
      }
    } else {
      var n := |effects| - 1;
      AheadAll(db, changes, effects[..n]);
      AheadStep(AfterAll(After(db, changes), effects[..n]), AfterAll(db, effects[..n]), changes, effects[n]);
    }
  }

  /** Undoing an exact effect at the head, behind any effects on other rows, gives what those effects alone
      make of the original state. */
  lemma UndoAtHead(db: Database, snapshot: Snapshot, changes: seq<Change>, effects: seq<seq<Change>>)
    requires Exact(db, changes) && forall e | e in effects :: DisjointRows(changes, e)
    ensures SameRows(AfterPlan(AfterAll(After(db, changes), effects), UndoChanges(EmptyPlan(snapshot), changes)),
                     AfterAll(db, effects))
  {
    hide After, Named, Stored, AfterPlan, UndoChanges, DisjointRows;
    AheadAll(db, changes, effects);
    var head, replay := AfterAll(After(db, changes), effects), AfterAll(db, effects);
    forall r ensures Stored(AfterPlan(head, UndoChanges(EmptyPlan(snapshot), changes)), r) == Stored(replay, r) {
      StoredAfterUndo(head, snapshot, changes, r);
    }
  }

  /** With nothing in between, the undo plan restores the source. */
  lemma UndoRestores(db: Database, snapshot: Snapshot, changes: seq<Change>)
    requires Exact(db, changes)
    ensures SameRows(AfterPlan(After(db, changes), UndoChanges(EmptyPlan(snapshot), changes)), db)
  {
    UndoAtHead(db, snapshot, changes, []);
  }

  /** Without exactness: the source comes back exactly when every removed row was there and no row was
      inserted that was there already, unless it was also removed. */
  lemma UndoRestoresIff(db: Database, snapshot: Snapshot, changes: seq<Change>)
    ensures SameRows(AfterPlan(After(db, changes), UndoChanges(EmptyPlan(snapshot), changes)), db) <==>
            forall r :: Named(changes, r, Removing) <= Stored(db, r)
                     && Named(changes, r, Inserting) * Stored(db, r) <= Named(changes, r, Removing)
  {
    hide After, Named, AfterPlan, UndoChanges;
    forall r
      ensures Stored(AfterPlan(After(db, changes), UndoChanges(EmptyPlan(snapshot), changes)), r) == Stored(db, r) <==>
              Named(changes, r, Removing) <= Stored(db, r)
              && Named(changes, r, Inserting) * Stored(db, r) <= Named(changes, r, Removing)
    {
      StoredAfter(db, changes, r);
      StoredAfterUndo(After(db, changes), snapshot, changes, r);
      RestoresRelationIff(Stored(db, r), Named(changes, r, Removing), Named(changes, r, Inserting));
    }
  }

  lemma RestoresRelationIff(stored: set<Row>, removed: set<Row>, inserted: set<Row>)
    ensures ((stored - removed) + inserted - inserted) + removed == stored <==>
            removed <= stored && inserted * stored <= removed
  {
    var back := ((stored - removed) + inserted - inserted) + removed;
    if back == stored {
      forall row | row in removed ensures row in stored { assert row in back; }
      forall row | row in inserted * stored ensures row in removed { assert row in back; }
    }
  }

  // ----- Building it -----

  ghost predicate NoRows(changes: seq<Change>) {
    forall r, d :: RowsOf(changes, r, d) == []
  }

  /** Why there is no undo plan: the first obstacle met. `certified` says whether the inverse was certified to
      commute with every intervening effect; at the entry's own revision no certificate is needed. */
  ghost function Obstacle(entry: Entry, writable: bool, open: bool, snapshot: Option<Snapshot>, current: nat, certified: bool)
    : Option<UndoError>
  {
    if !writable then Some(NotWritable)
    else if entry.reversibility != ExactPlanInverse then Some(NonReversible)
    else if !open then Some(RuntimeClosed)
    else if snapshot.None? then Some(SnapshotFailed)
    else if current != entry.target && !certified then Some(RebaseConflict)
    else if NoRows(entry.changes) && entry.modelComplement.None? then Some(NonReversible)
    else None
  }

  /** Undo is granted exactly when the entry can be written and inverted, the runtime is open and gives a snapshot, the
      entry is at its own revision or its inverse certified, and there is something to undo. */
  lemma GrantedIff(entry: Entry, writable: bool, open: bool, snapshot: Option<Snapshot>, current: nat, certified: bool)
    ensures Obstacle(entry, writable, open, snapshot, current, certified) == None
       <==> && writable && entry.reversibility.ExactPlanInverse? && open && snapshot.Some?
            && (current == entry.target || certified)
            && (entry.modelComplement.Some? || !NoRows(entry.changes))
    ensures Obstacle(entry, writable, open, snapshot, current, certified) == Some(RebaseConflict)
       <==> writable && entry.reversibility.ExactPlanInverse? && open && snapshot.Some? && current != entry.target && !certified
  {
    hide NoRows;
  }

  /** If nothing intervenes at the entry's own revision, and a certificate is given only when every intervening effect
      leaves the entry's rows alone, then what a granted plan does at the head is what those effects alone would have
      made of the state before the entry. */
  lemma GrantedUndoes(db: Database, entry: Entry, effects: seq<seq<Change>>, writable: bool, open: bool, snapshot: Option<Snapshot>,
                      current: nat, certified: bool)
    requires Obstacle(entry, writable, open, snapshot, current, certified) == None
    requires current == entry.target ==> effects == []
    requires certified ==> forall e | e in effects :: DisjointRows(entry.changes, e)
    requires Exact(db, entry.changes)
    ensures snapshot.Some?
    ensures SameRows(AfterPlan(AfterAll(After(db, entry.changes), effects),
                               UndoChanges(EmptyPlan(snapshot.value), entry.changes).(delta := entry.modelComplement)),
                     AfterAll(db, effects))
  {
    hide RowsOf, After, AfterPlan, UndoChanges, DisjointRows, SameRows, Exact;
    GrantedIff(entry, writable, open, snapshot, current, certified);
    UndoAtHead(db, snapshot.value, entry.changes, effects);
    var plan := UndoChanges(EmptyPlan(snapshot.value), entry.changes);
    SameEffect(AfterAll(After(db, entry.changes), effects), plan, plan.(delta := entry.modelComplement));
  }

  lemma SameEffect(db: Database, p: PlanData, q: PlanData)
    requires p.mutations == q.mutations
    ensures AfterPlan(db, p) == AfterPlan(db, q)
  {
    assert forall r, d :: Rows(p, r, d) == Rows(q, r, d);
  }

  method RemoveAll(plan: Plan, r: RelationId, rows: seq<Row>)
    modifies plan
    ensures plan.State() == AddRows(old(plan.State()), r, Removing, rows)
  {
    for i := 0 to |rows|
      invariant plan.State() == AddRows(old(plan.State()), r, Removing, rows[..i])
    {
      assert rows[..i + 1][..i] == rows[..i];
      plan.Remove(r, rows[i]);
    }
    assert rows[..|rows|] == rows;
  }

  method InsertAll(plan: Plan, r: RelationId, rows: seq<Row>)
    modifies plan
    ensures plan.State() == AddRows(old(plan.State()), r, Inserting, rows)
  {
    for i := 0 to |rows|
      invariant plan.State() == AddRows(old(plan.State()), r, Inserting, rows[..i])
    {
      assert rows[..i + 1][..i] == rows[..i];
      plan.Insert(r, rows[i]);
    }
    assert rows[..|rows|] == rows;
  }

  method UndoInto(plan: Plan, changes: seq<Change>)
    modifies plan
    ensures plan.State() == UndoChanges(old(plan.State()), changes)
  {
    for i := 0 to |changes|
      invariant plan.State() == UndoChanges(old(plan.State()), changes[..i])
    {
      var c := changes[i];
      assert changes[..i + 1][..i] == changes[..i];
      RemoveAll(plan, c.relation, c.inserted);
      InsertAll(plan, c.relation, c.removed);
      if Recorded(c) {
        plan.RegisterHistoryAuthorization(c.relation, Inverted(c.authorization), c.fieldWrites);
      }
    }
    assert changes[..|changes|] == changes;
  }

  method UndoPlan(entry: Entry, writable: bool, open: bool, snapshot: Option<Snapshot>, current: nat, certified: bool)
    returns (plan: Plan?, error: Option<UndoError>)
    ensures error == Obstacle(entry, writable, open, snapshot, current, certified)
    ensures plan == null <==> error.Some?
    ensures plan != null ==> fresh(plan)
    ensures plan != null ==>
              && snapshot.Some?
              && plan.State() == UndoChanges(EmptyPlan(snapshot.value), entry.changes).(delta := entry.modelComplement)
  {
    hide UndoChanges, RowsOf, Rows;
    if !writable { return null, Some(NotWritable); }
    if entry.reversibility != ExactPlanInverse { return null, Some(NonReversible); }
    if !open { return null, Some(RuntimeClosed); }
    if snapshot.None? { return null, Some(SnapshotFailed); }
    if current != entry.target && !certified { return null, Some(RebaseConflict); }
    var undo := new Plan(snapshot.value);
    UndoInto(undo, entry.changes);
    undo.delta := entry.modelComplement;
    var empty := undo.IsEmpty();
    EmptyUndo(snapshot.value, entry.changes, undo.State());
    if empty && undo.delta.None? { return null, Some(NonReversible); }
    plan, error := undo, None;
  }

  lemma EmptyUndo(snapshot: Snapshot, changes: seq<Change>, p: PlanData)
    requires p.mutations == UndoChanges(EmptyPlan(snapshot), changes).mutations
    requires p.objectPatches == UndoChanges(EmptyPlan(snapshot), changes).objectPatches
    ensures p.objectPatches == map[]
    ensures NoRows(changes) <==> forall r, d :: Rows(p, r, d) == []
  {
    hide UndoChanges, RowsOf;
    UndoKeepsPatches(EmptyPlan(snapshot), changes);
    forall r, d ensures Rows(p, r, d) == RowsOf(changes, r, Opposite(d)) {
      UndoRows(snapshot, changes, r, d);
    }
    if forall r, d :: Rows(p, r, d) == [] {
      forall r, d ensures RowsOf(changes, r, d) == [] {
        assert Rows(p, r, Opposite(d)) == RowsOf(changes, r, d);
      }
    }
  }

  lemma {:induction false} AddRowsKeepsPatches(p: PlanData, r: RelationId, d: Direction, rows: seq<Row>)
    ensures AddRows(p, r, d, rows).objectPatches == p.objectPatches
  {
    if rows != [] { AddRowsKeepsPatches(p, r, d, rows[..|rows| - 1]); }
  }

  lemma {:induction false} UndoKeepsPatches(p: PlanData, changes: seq<Change>)
    ensures UndoChanges(p, changes).objectPatches == p.objectPatches
  {
    if changes != [] {
      var n := |changes| - 1;
      UndoKeepsPatches(p, changes[..n]);
      var c, before := changes[n], UndoChanges(p, changes[..n]);
      AddRowsKeepsPatches(before, c.relation, Removing, c.inserted);
      AddRowsKeepsPatches(AddRows(before, c.relation, Removing, c.inserted), c.relation, Inserting, c.removed);
    }
  }

  // ----- Authorization and coverage -----

  predicate Permits(a: Authorization, action: Action) {
    match action
    case ObjectCreate => a.objectCreate
    case ObjectDelete => a.objectDelete
    case RelationshipAttach => a.relationshipAttach
    case RelationshipDetach => a.relationshipDetach
    case RelationshipMove => a.relationshipMove
  }

  function Inverse(action: Action): Action {
    match action
    case ObjectCreate => ObjectDelete
    case ObjectDelete => ObjectCreate
    case RelationshipAttach => RelationshipDetach
    case RelationshipDetach => RelationshipAttach
    case RelationshipMove => RelationshipMove
  }

  /** The inverted authorization permits exactly the inverses of what was permitted. */
  lemma InvertedPermits(a: Authorization, action: Action)
    ensures Permits(Inverted(a), Inverse(action)) <==> Permits(a, action)
    ensures Inverted(a).relationWrite == a.relationWrite
  {
  }

  /** The last recorded change of a relation decides: its inverted authorization and fields, over all rows that
      undo the changes of the relation up to it. */
  function CoverageFor(changes: seq<Change>, r: RelationId): Option<Coverage> {
    if changes == [] then None
    else
      var c := changes[|changes| - 1];
      if c.relation == r && Recorded(c)
      then Some(Coverage(|RowsOf(changes, r, Removing)|, |RowsOf(changes, r, Inserting)|, Inverted(c.authorization),
                         set f | f in c.fieldWrites))
      else CoverageFor(changes[..|changes| - 1], r)
  }

  lemma {:induction false} AddRowsKeepsHistory(p: PlanData, r: RelationId, d: Direction, rows: seq<Row>)
    ensures AddRows(p, r, d, rows).history == p.history
  {
    if rows != [] { AddRowsKeepsHistory(p, r, d, rows[..|rows| - 1]); }
  }

  lemma UndoChangeHistory(p: PlanData, c: Change)
    ensures var u := UndoChange(p, c);
            u.history == if Recorded(c)
                         then p.history[c.relation := Coverage(|Rows(u, c.relation, Inserting)|, |Rows(u, c.relation, Removing)|,
                                                               Inverted(c.authorization), set f | f in c.fieldWrites)]
                         else p.history
  {
    hide AddRows;
    AddRowsKeepsHistory(p, c.relation, Removing, c.inserted);
    AddRowsKeepsHistory(AddRows(p, c.relation, Removing, c.inserted), c.relation, Inserting, c.removed);
  }

  /** The undo plan's coverage of a relation is that of its last recorded change. */
  lemma {:induction false} UndoCoverage(snapshot: Snapshot, changes: seq<Change>, r: RelationId)
    ensures var history := UndoChanges(EmptyPlan(snapshot), changes).history;
            (if r in history then Some(history[r]) else None) == CoverageFor(changes, r)
  {
    if changes != [] {
      hide UndoChange, RowsOf, Rows;
      var n := |changes| - 1;
      var before, last := UndoChanges(EmptyPlan(snapshot), changes[..n]), changes[n];
      UndoCoverage(snapshot, changes[..n], r);
      UndoRows(snapshot, changes, last.relation, Inserting);
      UndoRows(snapshot, changes, last.relation, Removing);
      UndoChangeHistory(before, last);
    }
  }

  ghost predicate DistinctRelations(changes: seq<Change>) {
    forall i, j | 0 <= i < j < |changes| :: changes[i].relation != changes[j].relation
  }

  lemma {:induction false} OnlyChange(changes: seq<Change>, i: nat)
    requires i < |changes| && DistinctRelations(changes)
    ensures RowsOf(changes, changes[i].relation, Inserting) == changes[i].inserted
    ensures RowsOf(changes, changes[i].relation, Removing) == changes[i].removed
    ensures CoverageFor(changes, changes[i].relation)
         == if Recorded(changes[i])
            then Some(Coverage(|changes[i].removed|, |changes[i].inserted|, Inverted(changes[i].authorization),
                               set f | f in changes[i].fieldWrites))
            else None
  {
    var n := |changes| - 1;
    if i < n {
      assert changes[i].relation != changes[n].relation;
      OnlyChange(changes[..n], i);
    } else {
      forall c | c in changes[..n] ensures c.relation != changes[n].relation {
        var j :| 0 <= j < n && changes[..n][j] == c;
        assert changes[j].relation != changes[n].relation;
      }
      assert changes[n].relation !in Relations(changes[..n]);
      NamedRelations(changes[..n], changes[n].relation, Inserting);
      NamedRelations(changes[..n], changes[n].relation, Removing);
      NotYetCovered(changes[..n], changes[n].relation);
    }
  }

  lemma {:induction false} NotYetCovered(changes: seq<Change>, r: RelationId)
    requires r !in Relations(changes)
    ensures CoverageFor(changes, r) == None
  {
    if changes != [] {
      var n := |changes| - 1;
      assert changes[n] in changes && changes[n].relation in Relations(changes);
      forall c | c in changes[..n] ensures c.relation in Relations(changes) { assert c in changes; }
      NotYetCovered(changes[..n], r);
    }
  }

  /** An entry that changes each relation once: the coverage spans exactly the rows that undo the change and
      carries its inverted authorization and its fields. */
  lemma UndoCoverageOnce(snapshot: Snapshot, changes: seq<Change>, i: nat)
    requires i < |changes| && DistinctRelations(changes)
    ensures var history, c := UndoChanges(EmptyPlan(snapshot), changes).history, changes[i];
            && (c.relation in history <==> Recorded(c))
            && (Recorded(c) ==> history[c.relation] == Coverage(|c.removed|, |c.inserted|, Inverted(c.authorization),
                                                                 set f | f in c.fieldWrites))
  {
    hide UndoChanges, CoverageFor;
    UndoCoverage(snapshot, changes, changes[i].relation);
    OnlyChange(changes, i);
  }
}
